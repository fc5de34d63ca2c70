/** The in-process event bus and the ProjectEvents streams: Emit copies the subscriber list under the
    lock and then calls the handlers one by one outside it, each handler offers the event to a
    64-slot buffer, and each stream drains its own buffer. All of it interleaves. */
module EventFanout {
  import opened Wrappers
  import opened Sequences

  const BUFFER := 64

  type StreamId = nat
  /** An emission is named by its place in the log of emissions. */
  type Emission = nat

  datatype Sent = Sent(eventId: nat, emission: Emission)

  /** `since`, `dropped` are history: the length of the log at subscription, and what did not fit. */
  datatype Stream = Stream(
    since: nat, buffer: seq<Emission>, holding: Option<Sent>, sent: seq<Sent>, dropped: seq<Emission>)

  /** `flights` are the emissions whose handlers have not all been called; `overlaps` is history:
      the pairs (a, b) where b was emitted while a was still being delivered. */
  datatype State = State(
    emitted: nat, subscribers: seq<StreamId>, flights: map<Emission, seq<StreamId>>,
    streams: map<StreamId, Stream>, counter: nat, overlaps: set<(Emission, Emission)>)

  datatype Step =
    | Subscribe(stream: StreamId)
    | Unsubscribe(stream: StreamId)
    | Emit
    | Deliver(emission: Emission)
    | Take(stream: StreamId)
    | Send(stream: StreamId)

  const INIT := State(0, [], map[], map[], 0, {})

  /** The subscriber callback: a non-blocking send. */
  function Offer(st: Stream, e: Emission): Stream {
    if |st.buffer| < BUFFER then st.(buffer := st.buffer + [e]) else st.(dropped := st.dropped + [e])
  }

  function DoDeliver(s: State, e: Emission): State
    requires e in s.flights && s.flights[e] != []
  {
    var k := s.flights[e][0];
    var rest := s.flights[e][1..];
    s.(flights := if rest == [] then s.flights - {e} else s.flights[e := rest],
       streams := if k in s.streams then s.streams[k := Offer(s.streams[k], e)] else s.streams)
  }

  function Next(s: State, step: Step): State {
    match step
    case Subscribe(k) =>
      if k in s.streams then s
      else s.(subscribers := s.subscribers + [k], streams := s.streams[k := Stream(s.emitted, [], None, [], [])])
    case Unsubscribe(k) => s.(subscribers := Without(s.subscribers, k))
    case Emit =>
      s.(emitted := s.emitted + 1,
         flights := if s.subscribers == [] then s.flights else s.flights[s.emitted := s.subscribers],
         overlaps := s.overlaps + set e | e in s.flights :: (e, s.emitted))
    case Deliver(e) => if e in s.flights && s.flights[e] != [] then DoDeliver(s, e) else s
    case Take(k) =>
      if k in s.streams && s.streams[k].buffer != [] && s.streams[k].holding.None? then
        var st := s.streams[k];
        s.(counter := s.counter + 1,
           streams := s.streams[k := st.(buffer := st.buffer[1..], holding := Some(Sent(s.counter + 1, st.buffer[0])))])
      else s
    case Send(k) =>
      if k in s.streams && s.streams[k].holding.Some? then
        var st := s.streams[k];
        s.(streams := s.streams[k := st.(holding := None, sent := st.sent + [st.holding.value])])
      else s
  }

  function Exec(s: State, steps: seq<Step>): State
    decreases |steps|
  {
    if steps == [] then s else Exec(Next(s, steps[0]), steps[1..])
  }

  // ----- what a stream accepted: sent, about to be sent, or buffered, in that order -----

  function Handed(st: Stream): seq<Sent> {
    st.sent + if st.holding.Some? then [st.holding.value] else []
  }

  function Emissions(sent: seq<Sent>): (r: seq<Emission>)
    ensures |r| == |sent| && forall i :: 0 <= i < |r| ==> r[i] == sent[i].emission
  {
    seq(|sent|, i requires 0 <= i < |sent| => sent[i].emission)
  }

  function Accepted(st: Stream): seq<Emission> {
    Emissions(Handed(st)) + st.buffer
  }

  /** The streams of a flight are those still to be called. */
  ghost predicate Awaiting(s: State, e: Emission, k: StreamId) {
    e in s.flights && k in s.flights[e]
  }

  ghost predicate BusInv(s: State) {
    && Distinct(s.subscribers)
    && (forall k :: k in s.subscribers ==> k in s.streams)
    && (forall k :: k in s.streams ==> s.streams[k].since <= s.emitted)
    && (forall e :: e in s.flights ==>
          e < s.emitted && s.flights[e] != [] && Distinct(s.flights[e])
          && forall k :: k in s.flights[e] ==> k in s.streams && s.streams[k].since <= e)
  }

  ghost predicate OfferedTo(st: Stream, e: Emission) {
    e in Accepted(st) || e in st.dropped
  }

  /** What became of the emissions since a stream subscribed: each is accepted, dropped or still
      awaited; one of the three, and once. */
  ghost predicate StreamInv(s: State, k: StreamId)
    requires k in s.streams
  {
    var st := s.streams[k];
    && |st.buffer| <= BUFFER
    && Distinct(Accepted(st)) && Distinct(st.dropped)
    && (forall e :: e in Accepted(st) ==> e !in st.dropped)
    && (forall e: Emission :: OfferedTo(st, e) ==> st.since <= e < s.emitted && !Awaiting(s, e, k))
    && (k in s.subscribers ==> forall e: Emission :: st.since <= e < s.emitted ==> OfferedTo(st, e) || Awaiting(s, e, k))
  }

  /** Two emissions a stream accepted out of order were in delivery at the same time. */
  ghost predicate OrderInv(s: State, k: StreamId)
    requires k in s.streams
  {
    var acc := Accepted(s.streams[k]);
    forall i, j :: 0 <= i < j < |acc| ==> acc[i] < acc[j] || (acc[j], acc[i]) in s.overlaps
  }

  /** An emission in delivery overlaps every later one. */
  ghost predicate FlightInv(s: State) {
    forall e, later :: e in s.flights && e < later < s.emitted ==> (e, later) in s.overlaps
  }

  /** Event ids grow along each stream. */
  ghost predicate IdsGrow(s: State, k: StreamId)
    requires k in s.streams
  {
    var h := Handed(s.streams[k]);
    && (forall i :: 0 <= i < |h| ==> 1 <= h[i].eventId <= s.counter)
    && (forall i, j :: 0 <= i < j < |h| ==> h[i].eventId < h[j].eventId)
  }

  ghost predicate IdsApart(s: State, k: StreamId, l: StreamId)
    requires k in s.streams && l in s.streams
  {
    forall x, y :: x in Handed(s.streams[k]) && y in Handed(s.streams[l]) ==> x.eventId != y.eventId
  }

  ghost predicate Inv(s: State) {
    && BusInv(s)
    && FlightInv(s)
    && (forall k :: k in s.streams ==> StreamInv(s, k) && OrderInv(s, k) && IdsGrow(s, k))
    && (forall k, l :: k in s.streams && l in s.streams && k != l ==> IdsApart(s, k, l))
  }

  lemma BusStep(s: State, step: Step)
    requires BusInv(s)
    ensures BusInv(Next(s, step))
  {
    if step.Unsubscribe? {
      WithoutKeepsDistinct(s.subscribers, step.stream);
    }
  }

  lemma FlightStep(s: State, step: Step)
    requires BusInv(s) && FlightInv(s)
    ensures FlightInv(Next(s, step))
  {
  }

  /** One step gives a stream at most one emission, taken off the front of a flight; draining the
      buffer changes nothing in what the stream accepted. */
  lemma AcceptedStep(s: State, step: Step, k: StreamId)
    requires k in s.streams
    ensures var st, st' := s.streams[k], Next(s, step).streams[k];
            && st'.since == st.since
            && (|st.buffer| <= BUFFER ==> |st'.buffer| <= BUFFER)
            && (if step.Deliver? && step.emission in s.flights && s.flights[step.emission] != [] && s.flights[step.emission][0] == k then
                  st' == Offer(st, step.emission)
                else
                  Accepted(st') == Accepted(st) && st'.dropped == st.dropped)
  {
  }

  lemma OfferAccepts(st: Stream, e: Emission)
    ensures |st.buffer| < BUFFER ==> Accepted(Offer(st, e)) == Accepted(st) + [e] && Offer(st, e).dropped == st.dropped
    ensures |st.buffer| >= BUFFER ==> Accepted(Offer(st, e)) == Accepted(st) && Offer(st, e).dropped == st.dropped + [e]
  {
  }

  /** What a stream awaits shrinks only by delivery to it, and grows only by a new emission. */
  lemma AwaitingStep(s: State, step: Step, e: Emission, k: StreamId)
    requires BusInv(s)
    ensures var s' := Next(s, step);
            && (Awaiting(s', e, k) ==> Awaiting(s, e, k) || (step == Emit && e == s.emitted))
            && (Awaiting(s, e, k) && !Awaiting(s', e, k) ==> step == Deliver(e) && s.flights[e][0] == k)
            && (step == Deliver(e) && Awaiting(s, e, k) && s.flights[e][0] == k ==> !Awaiting(s', e, k))
            && (step == Emit && k in s.subscribers ==> Awaiting(s', s.emitted, k))
  {
  }

  lemma NotYetOffered(s: State, e: Emission, k: StreamId)
    requires k in s.streams && StreamInv(s, k)
    ensures e in s.flights && s.flights[e] != [] && s.flights[e][0] == k ==> !OfferedTo(s.streams[k], e)
  {
    assert e in s.flights && s.flights[e] != [] && s.flights[e][0] == k ==> Awaiting(s, e, k);
  }

  lemma OfferedStep(s: State, step: Step, k: StreamId, e: Emission)
    requires BusInv(s) && k in s.streams && StreamInv(s, k)
    ensures var s' := Next(s, step);
            && (OfferedTo(s'.streams[k], e) ==> s'.streams[k].since <= e < s'.emitted && !Awaiting(s', e, k))
            && (k in s.subscribers && s'.streams[k].since <= e < s'.emitted ==> OfferedTo(s'.streams[k], e) || Awaiting(s', e, k))
  {
    AcceptedStep(s, step, k);
    AwaitingStep(s, step, e, k);
    if step.Deliver? {
      OfferAccepts(s.streams[k], step.emission);
    }
    assert OfferedTo(s.streams[k], e) ==> e < s.emitted;
  }

  lemma StreamStep(s: State, step: Step, k: StreamId)
    requires BusInv(s)
    requires k in s.streams ==> StreamInv(s, k)
    ensures k in Next(s, step).streams ==> StreamInv(Next(s, step), k)
  {
    var s' := Next(s, step);
    if k in s.streams {
      assert k in s'.subscribers ==> k in s.subscribers by {
        if step.Unsubscribe? {
          WithoutKeepsDistinct(s.subscribers, step.stream);
        }
      }
      forall e: Emission
        ensures OfferedTo(s'.streams[k], e) ==> s'.streams[k].since <= e < s'.emitted && !Awaiting(s', e, k)
        ensures k in s'.subscribers && s'.streams[k].since <= e < s'.emitted ==> OfferedTo(s'.streams[k], e) || Awaiting(s', e, k)
      {
        OfferedStep(s, step, k, e);
      }
      AcceptedStep(s, step, k);
      if step.Deliver? {
        OfferAccepts(s.streams[k], step.emission);
        NotYetOffered(s, step.emission, k);
      }
    }
  }

  lemma OrderStep(s: State, step: Step, k: StreamId)
    requires BusInv(s) && FlightInv(s)
    requires k in s.streams ==> StreamInv(s, k) && OrderInv(s, k)
    ensures k in Next(s, step).streams ==> OrderInv(Next(s, step), k)
  {
    if k in s.streams {
      AcceptedStep(s, step, k);
      if step.Deliver? && step.emission in s.flights {
        OfferAccepts(s.streams[k], step.emission);
        NotYetOffered(s, step.emission, k);
        var acc := Accepted(s.streams[k]);
        forall i | 0 <= i < |acc|
          ensures acc[i] == step.emission || acc[i] < step.emission || (step.emission, acc[i]) in s.overlaps
        {
          assert OfferedTo(s.streams[k], acc[i]);
        }
      }
    }
  }

  /** Only draining a buffer hands out an id, and it is the next one. */
  lemma HandedStep(s: State, step: Step, k: StreamId)
    ensures var s' := Next(s, step);
            k in s'.streams ==>
              var before := if k in s.streams then Handed(s.streams[k]) else [];
              var after := Handed(s'.streams[k]);
              && s.counter <= s'.counter
              && (after == before
                  || (step == Take(k) && s'.counter == s.counter + 1 && |after| == |before| + 1
                      && after[..|before|] == before && after[|before|].eventId == s'.counter))
  {
  }

  lemma IdStep(s: State, step: Step, k: StreamId)
    requires k in s.streams ==> IdsGrow(s, k)
    ensures k in Next(s, step).streams ==> IdsGrow(Next(s, step), k)
  {
    HandedStep(s, step, k);
    var s' := Next(s, step);
    if k in s'.streams {
      var after := Handed(s'.streams[k]);
      var before := if k in s.streams then Handed(s.streams[k]) else [];
      assert forall i :: 0 <= i < |before| ==> after[i] == before[i];
    }
  }

  lemma IdPairStep(s: State, step: Step, k: StreamId, l: StreamId)
    requires k in s.streams ==> IdsGrow(s, k)
    requires l in s.streams ==> IdsGrow(s, l)
    requires k in s.streams && l in s.streams && k != l ==> IdsApart(s, k, l)
    ensures k in Next(s, step).streams && l in Next(s, step).streams && k != l ==> IdsApart(Next(s, step), k, l)
  {
    HandedStep(s, step, k);
    HandedStep(s, step, l);
    var s' := Next(s, step);
    if k in s'.streams && l in s'.streams && k != l {
      var before := if k in s.streams then Handed(s.streams[k]) else [];
      var beforeL := if l in s.streams then Handed(s.streams[l]) else [];
      forall x, y | x in Handed(s'.streams[k]) && y in Handed(s'.streams[l])
        ensures x.eventId != y.eventId
      {
        assert x in before || x.eventId == s.counter + 1;
        assert y in beforeL || y.eventId == s.counter + 1;
      }
    }
  }

  lemma {:induction false} InvHoldsFrom(s: State, steps: seq<Step>)
    requires Inv(s)
    ensures Inv(Exec(s, steps))
    decreases |steps|
  {
    if steps != [] {
      var step, s' := steps[0], Next(s, steps[0]);
      BusStep(s, step);
      FlightStep(s, step);
      forall k | k in s'.streams
        ensures StreamInv(s', k) && OrderInv(s', k) && IdsGrow(s', k)
      {
        StreamStep(s, step, k);
        OrderStep(s, step, k);
        IdStep(s, step, k);
      }
      forall k, l | k in s'.streams && l in s'.streams && k != l
        ensures IdsApart(s', k, l)
      {
        IdPairStep(s, step, k, l);
      }
      InvHoldsFrom(s', steps[1..]);
    }
  }

  // ----- who is subscribed after a run, from its steps alone -----

  function Emits(steps: seq<Step>): nat {
    if steps == [] then 0 else Emits(steps[..|steps| - 1]) + if steps[|steps| - 1] == Emit then 1 else 0
  }

  ghost predicate SubscribesFirst(steps: seq<Step>, k: StreamId, i: int) {
    0 <= i < |steps| && steps[i] == Subscribe(k) && forall j :: 0 <= j < i ==> steps[j] != Subscribe(k)
  }

  /** The stream subscribed at this step of the run, and has not unsubscribed since. */
  ghost predicate Stays(steps: seq<Step>, k: StreamId, i: int) {
    SubscribesFirst(steps, k, i) && forall j :: i < j < |steps| ==> steps[j] != Unsubscribe(k)
  }

  ghost predicate Opened(steps: seq<Step>, k: StreamId) {
    exists i :: SubscribesFirst(steps, k, i)
  }

  ghost predicate IsSubscribed(steps: seq<Step>, k: StreamId) {
    exists i :: Stays(steps, k, i)
  }

  lemma {:induction false} ExecSnoc(s: State, steps: seq<Step>, step: Step)
    ensures Exec(s, steps + [step]) == Next(Exec(s, steps), step)
    decreases |steps|
  {
    if steps == [] {
      assert steps + [step] == [step];
    } else {
      assert (steps + [step])[1..] == steps[1..] + [step];
      ExecSnoc(Next(s, steps[0]), steps[1..], step);
    }
  }

  lemma SubscribesSnoc(front: seq<Step>, last: Step, k: StreamId, i: int)
    ensures SubscribesFirst(front + [last], k, i) <==>
              SubscribesFirst(front, k, i) || (i == |front| && last == Subscribe(k) && !Opened(front, k))
    ensures Stays(front + [last], k, i) <==>
              (Stays(front, k, i) && last != Unsubscribe(k)) || (i == |front| && last == Subscribe(k) && !Opened(front, k))
  {
    var steps := front + [last];
    assert forall j :: 0 <= j < |front| ==> steps[j] == front[j];
    assert steps[|front|] == last;
    OpenedIff(front, k);
  }

  lemma {:induction false} OpenedIff(steps: seq<Step>, k: StreamId)
    ensures Opened(steps, k) <==> Subscribe(k) in steps
  {
    if steps != [] {
      var front := steps[..|steps| - 1];
      assert steps == front + [steps[|front|]];
      OpenedIff(front, k);
      if Opened(front, k) {
        var i :| SubscribesFirst(front, k, i);
        assert SubscribesFirst(steps, k, i);
      } else if steps[|front|] == Subscribe(k) {
        assert SubscribesFirst(steps, k, |front|);
      }
    }
  }

  lemma BothSnoc(front: seq<Step>, last: Step, k: StreamId)
    ensures Opened(front + [last], k) <==> Opened(front, k) || last == Subscribe(k)
    ensures IsSubscribed(front + [last], k) <==>
              if Opened(front, k) then IsSubscribed(front, k) && last != Unsubscribe(k) else last == Subscribe(k)
  {
    var steps := front + [last];
    OpenedIff(front, k);
    OpenedIff(steps, k);
    if IsSubscribed(steps, k) {
      var i :| Stays(steps, k, i);
      SubscribesSnoc(front, last, k, i);
    }
    if IsSubscribed(front, k) {
      var i :| Stays(front, k, i);
      SubscribesSnoc(front, last, k, i);
    }
    SubscribesSnoc(front, last, k, |front|);
  }

  /** After any run the subscribers are the streams that subscribed at some step and have not unsubscribed
      after it, whatever other streams did; and a stream's account begins with the emissions from there. */
  lemma {:induction false} SubscribedIff(steps: seq<Step>, k: StreamId)
    ensures var s := Exec(INIT, steps);
            && (k in s.streams <==> Subscribe(k) in steps)
            && (k in s.subscribers <==> IsSubscribed(steps, k))
            && s.emitted == Emits(steps)
            && (forall i :: SubscribesFirst(steps, k, i) ==> k in s.streams && s.streams[k].since == Emits(steps[..i]))
  {
    OpenedIff(steps, k);
    if steps != [] {
      var front, last := steps[..|steps| - 1], steps[|steps| - 1];
      assert steps == front + [last];
      var s := Exec(INIT, front);
      SubscribedIff(front, k);
      OpenedIff(front, k);
      ExecSnoc(INIT, front, last);
      BothSnoc(front, last, k);
      InvHoldsFrom(INIT, front);
      SubscribersStep(s, last, k);
      forall i | SubscribesFirst(steps, k, i)
        ensures Exec(INIT, steps).streams[k].since == Emits(steps[..i])
      {
        SubscribesSnoc(front, last, k, i);
        assert steps[..i] == front[..i];
        assert front[..|front|] == front;
      }
    }
  }

  /** Only its own steps subscribe a stream or unsubscribe it. */
  lemma SubscribersStep(s: State, step: Step, k: StreamId)
    requires BusInv(s)
    ensures var s' := Next(s, step);
            && (k in s'.streams <==> k in s.streams || step == Subscribe(k))
            && (k in s'.subscribers <==>
                  if k in s.streams then k in s.subscribers && step != Unsubscribe(k) else step == Subscribe(k))
            && (k in s.streams ==> s'.streams[k].since == s.streams[k].since)
            && (k !in s.streams && step == Subscribe(k) ==> s'.streams[k].since == s.emitted)
            && s'.emitted == s.emitted + if step == Emit then 1 else 0
  {
    if step.Unsubscribe? {
      WithoutKeepsDistinct(s.subscribers, step.stream);
    }
    if k in s.streams {
      AcceptedStep(s, step, k);
    }
  }

  // ----- the promises, over every run -----

  /** A stream loses nothing except by a full buffer: every emission since it subscribed was accepted,
      dropped, or has still to be offered to it; exactly one of them. */
  lemma NothingLostSilently(steps: seq<Step>, k: StreamId, i: int, e: Emission)
    ensures var s := Exec(INIT, steps);
            Stays(steps, k, i) ==>
              && k in s.streams
              && var st := s.streams[k];
              && |st.buffer| <= 64
              && (e in Accepted(st) || e in st.dropped || Awaiting(s, e, k) <==> Emits(steps[..i]) <= e < Emits(steps))
              && !(e in Accepted(st) && e in st.dropped)
              && !(Awaiting(s, e, k) && OfferedTo(st, e))
  {
    InvHoldsFrom(INIT, steps);
    SubscribedIff(steps, k);
    var s := Exec(INIT, steps);
    if Stays(steps, k, i) {
      assert StreamInv(s, k);
      assert OfferedTo(s.streams[k], e) <==> e in Accepted(s.streams[k]) || e in s.streams[k].dropped;
    }
  }

  /** A step drops an emission of a stream only when 64 of them are waiting in its buffer. */
  lemma DropsOnlyWhenFull(steps: seq<Step>, step: Step, k: StreamId)
    ensures var s := Exec(INIT, steps);
            k in s.streams && Next(s, step).streams[k].dropped != s.streams[k].dropped ==>
              |s.streams[k].buffer| == 64 && step.Deliver?
  {
    InvHoldsFrom(INIT, steps);
    var s := Exec(INIT, steps);
    if k in s.streams {
      assert StreamInv(s, k);
      AcceptedStep(s, step, k);
    }
  }

  /** What a client receives is in emission order, without repetition, except between emissions whose
      deliveries overlapped. */
  lemma SentInOrder(steps: seq<Step>, k: StreamId, i: nat, j: nat)
    ensures var s := Exec(INIT, steps);
            k in s.streams && i < j < |s.streams[k].sent| ==>
              var sent := s.streams[k].sent;
              && s.streams[k].since <= sent[i].emission < s.emitted
              && sent[i].emission != sent[j].emission
              && ((sent[j].emission, sent[i].emission) !in s.overlaps ==> sent[i].emission < sent[j].emission)
              && sent[i].eventId < sent[j].eventId
  {
    InvHoldsFrom(INIT, steps);
    var s := Exec(INIT, steps);
    if k in s.streams && i < j < |s.streams[k].sent| {
      var acc := Accepted(s.streams[k]);
      assert StreamInv(s, k) && OrderInv(s, k) && IdsGrow(s, k);
      assert acc[i] == s.streams[k].sent[i].emission && acc[j] == s.streams[k].sent[j].emission;
      assert Handed(s.streams[k])[i] == s.streams[k].sent[i] && Handed(s.streams[k])[j] == s.streams[k].sent[j];
      assert OfferedTo(s.streams[k], acc[i]);
    }
  }

  /** No id is handed out twice: the same emission carries different ids on different streams. */
  lemma EventIdsAreUnique(steps: seq<Step>, k: StreamId, l: StreamId, x: Sent, y: Sent)
    ensures var s := Exec(INIT, steps);
            k in s.streams && l in s.streams && x in s.streams[k].sent && y in s.streams[l].sent && x.eventId == y.eventId ==>
              k == l && x == y
  {
    InvHoldsFrom(INIT, steps);
    var s := Exec(INIT, steps);
    if k in s.streams && l in s.streams && x in s.streams[k].sent && y in s.streams[l].sent {
      assert x in Handed(s.streams[k]) && y in Handed(s.streams[l]);
      assert IdsGrow(s, k);
      assert k != l ==> IdsApart(s, k, l);
    }
  }

  // ----- one emission with nothing in between, and leaving the bus -----

  function DeliverAll(s: State, e: Emission, n: nat): State
    decreases n
  {
    if n == 0 then s else DeliverAll(Next(s, Deliver(e)), e, n - 1)
  }

  /** An uninterrupted Emit offers the event once to every subscriber, and to no other stream. */
  lemma EmitReachesEverySubscriber(steps: seq<Step>)
    ensures var s := Exec(INIT, steps);
            var s' := DeliverAll(Next(s, Emit), s.emitted, |s.subscribers|);
            && s'.flights == s.flights && s'.streams.Keys == s.streams.Keys
            && forall k :: k in s.streams ==>
                 s'.streams[k] == if IsSubscribed(steps, k) then Offer(s.streams[k], s.emitted) else s.streams[k]
  {
    InvHoldsFrom(INIT, steps);
    var s := Exec(INIT, steps);
    forall k | k in s.streams
      ensures k in s.subscribers <==> IsSubscribed(steps, k)
    {
      SubscribedIff(steps, k);
    }
    assert s.emitted !in s.flights;
    var s1 := Next(s, Emit);
    if s.subscribers != [] {
      assert s1.flights - {s.emitted} == s.flights;
      DeliversInTurn(s1, s.emitted, s.subscribers);
    }
  }

  /** The streams subscribed in this order. */
  ghost predicate Ordered(steps: seq<Step>, ks: seq<StreamId>) {
    forall a, b, i, j :: 0 <= a < b < |ks| && SubscribesFirst(steps, ks[a], i) && SubscribesFirst(steps, ks[b], j) ==> i < j
  }

  /** Emit calls the handlers in the order in which their streams subscribed: after n calls the first n have
      been offered the event. */
  lemma {:induction false} HandlersRunInOrder(steps: seq<Step>, n: nat)
    requires n <= |Exec(INIT, steps).subscribers|
    ensures var s := Exec(INIT, steps);
            var s' := DeliverAll(Next(s, Emit), s.emitted, n);
            && (forall k :: k in s.streams ==>
                  k in s'.streams
                  && s'.streams[k] == if k in s.subscribers[..n] then Offer(s.streams[k], s.emitted) else s.streams[k])
            && Ordered(steps, s.subscribers)
  {
    InvHoldsFrom(INIT, steps);
    var s := Exec(INIT, steps);
    if n > 0 {
      DeliversFirst(Next(s, Emit), s.emitted, s.subscribers, n);
    }
    SubscribersInOrder(steps);
  }

  lemma {:induction false} DeliversFirst(s: State, e: Emission, ks: seq<StreamId>, n: nat)
    requires ks != [] && e in s.flights && s.flights[e] == ks && n <= |ks|
    requires Distinct(ks) && forall k :: k in ks ==> k in s.streams
    ensures var s' := DeliverAll(s, e, n);
            && s'.streams.Keys == s.streams.Keys
            && forall k :: k in s.streams ==> s'.streams[k] == if k in ks[..n] then Offer(s.streams[k], e) else s.streams[k]
    decreases n
  {
    if n > 0 {
      var s1 := Next(s, Deliver(e));
      assert s1 == DoDeliver(s, e);
      assert ks == [ks[0]] + ks[1..] && ks[0] !in ks[1..] && ks[..n] == [ks[0]] + ks[1..][..n - 1];
      if n > 1 {
        DeliversFirst(s1, e, ks[1..], n - 1);
      } else {
        assert DeliverAll(s1, e, 0) == s1;
      }
    }
  }

  ghost predicate AllOpened(steps: seq<Step>, ks: seq<StreamId>) {
    forall a :: 0 <= a < |ks| ==> Opened(steps, ks[a])
  }

  lemma OrderedSnoc(front: seq<Step>, last: Step, ks: seq<StreamId>)
    requires Ordered(front, ks) && AllOpened(front, ks)
    ensures Ordered(front + [last], ks)
  {
    var steps := front + [last];
    forall a, b, i, j | 0 <= a < b < |ks| && SubscribesFirst(steps, ks[a], i) && SubscribesFirst(steps, ks[b], j)
      ensures i < j
    {
      SubscribesSnoc(front, last, ks[a], i);
      SubscribesSnoc(front, last, ks[b], j);
    }
  }

  lemma OrderedWithNew(front: seq<Step>, k: StreamId, ks: seq<StreamId>)
    requires Ordered(front, ks) && AllOpened(front, ks) && !Opened(front, k)
    ensures Ordered(front + [Subscribe(k)], ks + [k])
  {
    var steps, more := front + [Subscribe(k)], ks + [k];
    forall a, b, i, j | 0 <= a < b < |more| && SubscribesFirst(steps, more[a], i) && SubscribesFirst(steps, more[b], j)
      ensures i < j
    {
      assert more[a] == ks[a] && (b < |ks| ==> more[b] == ks[b]);
      SubscribesSnoc(front, Subscribe(k), more[a], i);
      SubscribesSnoc(front, Subscribe(k), more[b], j);
    }
  }

  lemma {:induction false} SubscribersInOrder(steps: seq<Step>)
    ensures Ordered(steps, Exec(INIT, steps).subscribers)
  {
    if steps != [] {
      var front, last := steps[..|steps| - 1], steps[|steps| - 1];
      var s := Exec(INIT, front);
      assert steps == front + [last];
      SubscribersInOrder(front);
      ExecSnoc(INIT, front, last);
      AllAreOpened(front);
      if last.Subscribe? && last.stream !in s.streams {
        SubscribedIff(front, last.stream);
        OpenedIff(front, last.stream);
        OrderedWithNew(front, last.stream, s.subscribers);
      } else {
        OrderedSnoc(front, last, s.subscribers);
        if last.Unsubscribe? {
          WithoutKeepsOrder(steps, s.subscribers, last.stream);
        }
      }
    }
  }

  lemma AllAreOpened(steps: seq<Step>)
    ensures AllOpened(steps, Exec(INIT, steps).subscribers)
  {
    forall k | k in Exec(INIT, steps).subscribers
      ensures Opened(steps, k)
    {
      SubscribedIff(steps, k);
      var i :| Stays(steps, k, i);
      assert SubscribesFirst(steps, k, i);
    }
  }

  lemma {:induction false} WithoutKeepsOrder(steps: seq<Step>, ks: seq<StreamId>, k: StreamId)
    requires Ordered(steps, ks)
    ensures Ordered(steps, Without(ks, k))
  {
    if ks != [] {
      var rest := ks[1..];
      assert forall a :: 0 <= a < |rest| ==> rest[a] == ks[a + 1];
      WithoutKeepsOrder(steps, rest, k);
      if ks[0] != k {
        var left := Without(rest, k);
        forall b, i, j | 0 <= b < |left| && SubscribesFirst(steps, ks[0], i) && SubscribesFirst(steps, left[b], j)
          ensures i < j
        {
          WithoutMembers(rest, k, b);
          var c :| 0 <= c < |rest| && rest[c] == left[b];
          assert ks[c + 1] == left[b];
        }
      }
    }
  }

  lemma {:induction false} WithoutMembers(ks: seq<StreamId>, k: StreamId, b: nat)
    requires b < |Without(ks, k)|
    ensures Without(ks, k)[b] in ks
  {
    if ks[0] != k && b > 0 {
      WithoutMembers(ks[1..], k, b - 1);
    }
  }

  lemma {:induction false} DeliversInTurn(s: State, e: Emission, ks: seq<StreamId>)
    requires ks != [] && e in s.flights && s.flights[e] == ks
    requires Distinct(ks) && forall k :: k in ks ==> k in s.streams
    ensures var s' := DeliverAll(s, e, |ks|);
            && s'.flights == s.flights - {e} && s'.streams.Keys == s.streams.Keys
            && forall k :: k in s.streams ==> s'.streams[k] == if k in ks then Offer(s.streams[k], e) else s.streams[k]
    decreases |ks|
  {
    var s1 := Next(s, Deliver(e));
    assert s1 == DoDeliver(s, e);
    assert ks == [ks[0]] + ks[1..] && ks[0] !in ks[1..];
    if |ks| == 1 {
      assert DeliverAll(s1, e, 0) == s1;
    } else {
      assert s1.flights - {e} == s.flights - {e};
      DeliversInTurn(s1, e, ks[1..]);
    }
  }

  /** A stream that has left is only concerned with emissions before `bound`. */
  ghost predicate HasLeft(s: State, k: StreamId, bound: nat) {
    && k in s.streams && k !in s.subscribers && bound <= s.emitted
    && forall e: Emission :: OfferedTo(s.streams[k], e) || Awaiting(s, e, k) ==> e < bound
  }

  lemma HasLeftStep(s: State, step: Step, k: StreamId, bound: nat)
    requires BusInv(s) && HasLeft(s, k, bound)
    ensures HasLeft(Next(s, step), k, bound)
  {
    var s' := Next(s, step);
    if step.Unsubscribe? {
      WithoutKeepsDistinct(s.subscribers, step.stream);
    }
    AcceptedStep(s, step, k);
    if step.Deliver? {
      OfferAccepts(s.streams[k], step.emission);
    }
    forall e: Emission | OfferedTo(s'.streams[k], e) || Awaiting(s', e, k)
      ensures e < bound
    {
      AwaitingStep(s, step, e, k);
      assert step.Deliver? && step.emission in s.flights && s.flights[step.emission] != [] && s.flights[step.emission][0] == k ==>
          Awaiting(s, step.emission, k);
      assert OfferedTo(s'.streams[k], e) ==> OfferedTo(s.streams[k], e) || (step.Deliver? && step.emission == e && Awaiting(s, e, k));
    }
  }

  lemma {:induction false} HasLeftForGood(s: State, steps: seq<Step>, k: StreamId, bound: nat)
    requires Inv(s) && HasLeft(s, k, bound)
    ensures HasLeft(Exec(s, steps), k, bound)
    decreases |steps|
  {
    if steps != [] {
      var s' := Next(s, steps[0]);
      assert Inv(s') by {
        InvHoldsFrom(s, [steps[0]]);
        assert Exec(s, [steps[0]]) == Exec(s', []);
      }
      HasLeftStep(s, steps[0], k, bound);
      HasLeftForGood(s', steps[1..], k, bound);
    }
  }

  /** Once a stream has unsubscribed, nothing emitted afterwards is ever offered to it. */
  lemma UnsubscribedHearsNothingNew(steps: seq<Step>, k: StreamId, after: seq<Step>, e: Emission)
    ensures var s := Exec(INIT, steps);
            var s' := Exec(Next(s, Unsubscribe(k)), after);
            k in s.streams ==>
              k in s'.streams && k !in s'.subscribers && (OfferedTo(s'.streams[k], e) || Awaiting(s', e, k) ==> e < s.emitted)
  {
    InvHoldsFrom(INIT, steps);
    var s := Exec(INIT, steps);
    if k in s.streams {
      var s1 := Next(s, Unsubscribe(k));
      assert Inv(s1) by {
        InvHoldsFrom(s, [Unsubscribe(k)]);
        assert Exec(s, [Unsubscribe(k)]) == Exec(s1, []);
      }
      assert HasLeft(s1, k, s.emitted) by {
        WithoutKeepsDistinct(s.subscribers, k);
        assert StreamInv(s, k);
      }
      HasLeftForGood(s1, after, k, s.emitted);
    }
  }
}
