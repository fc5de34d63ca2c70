/** When clients are sent events in the order in which they were emitted: exactly how many emissions may be
    in delivery at once. */
module EmissionOrder {
  import opened Wrappers
  import opened Sequences
  import opened EventFanout

  /** No state of the run has more than n emissions in delivery. */
  ghost predicate AtMost(s: State, steps: seq<Step>, n: nat)
    decreases |steps|
  {
    |s.flights| <= n && (steps != [] ==> AtMost(Next(s, steps[0]), steps[1..], n))
  }

  /** Every client has been sent later emissions later. */
  ghost predicate InOrder(s: State) {
    forall k, i, j :: k in s.streams && 0 <= i < j < |s.streams[k].sent| ==>
      s.streams[k].sent[i].emission < s.streams[k].sent[j].emission
  }

  // ----- at most one -----

  /** The later emission of an overlapping pair is in no delivery and was offered to no stream: it found no
      subscriber. */
  ghost predicate LaterIsUnheard(s: State) {
    forall a, b :: (a, b) in s.overlaps ==> b < s.emitted && b !in s.flights && forall k :: k in s.streams ==> !OfferedTo(s.streams[k], b)
  }

  lemma TwoFlights(flights: map<Emission, seq<StreamId>>, a: Emission, b: Emission)
    requires a in flights && b in flights && a != b
    ensures |flights| >= 2
  {
    SubsetSize({a, b}, flights.Keys);
  }

  lemma EmitUnheard(s: State)
    requires Inv(s) && LaterIsUnheard(s) && |Next(s, Emit).flights| <= 1
    ensures LaterIsUnheard(Next(s, Emit))
  {
    var s' := Next(s, Emit);
    forall a, b | (a, b) in s'.overlaps
      ensures b < s'.emitted && b !in s'.flights && forall k :: k in s'.streams ==> !OfferedTo(s'.streams[k], b)
    {
      if (a, b) !in s.overlaps {
        assert b == s.emitted && a in s.flights;
        if b in s'.flights {
          TwoFlights(s'.flights, a, b);
        }
        forall k | k in s'.streams
          ensures !OfferedTo(s'.streams[k], b)
        {
          assert StreamInv(s, k);
        }
      }
    }
  }

  lemma UnheardStep(s: State, step: Step)
    requires Inv(s) && LaterIsUnheard(s) && |Next(s, step).flights| <= 1
    ensures LaterIsUnheard(Next(s, step))
  {
    if step == Emit {
      EmitUnheard(s);
    } else {
      var s' := Next(s, step);
      forall a, b | (a, b) in s'.overlaps
        ensures b < s'.emitted && b !in s'.flights && forall k :: k in s'.streams ==> !OfferedTo(s'.streams[k], b)
      {
        assert (a, b) in s.overlaps;
        forall k | k in s'.streams
          ensures !OfferedTo(s'.streams[k], b)
        {
          StillUnheard(s, step, k, b);
        }
      }
    }
  }

  lemma StillUnheard(s: State, step: Step, k: StreamId, b: Emission)
    requires k in Next(s, step).streams && b !in s.flights
    requires k in s.streams ==> !OfferedTo(s.streams[k], b)
    ensures !OfferedTo(Next(s, step).streams[k], b)
  {
    if k in s.streams {
      AcceptedStep(s, step, k);
      if step.Deliver? {
        OfferAccepts(s.streams[k], step.emission);
      }
    }
  }

  lemma {:induction false} UnheardHoldsFrom(s: State, steps: seq<Step>)
    requires AtMost(s, steps, 1) && Inv(s) && LaterIsUnheard(s)
    ensures Inv(Exec(s, steps)) && LaterIsUnheard(Exec(s, steps))
    decreases |steps|
  {
    if steps != [] {
      var s' := Next(s, steps[0]);
      assert Inv(s') by {
        InvHoldsFrom(s, [steps[0]]);
        assert Exec(s, [steps[0]]) == Exec(s', []);
      }
      UnheardStep(s, steps[0]);
      UnheardHoldsFrom(s', steps[1..]);
    }
  }

  lemma UnheardIsInOrder(s: State)
    requires Inv(s) && LaterIsUnheard(s)
    ensures InOrder(s)
  {
    forall k, i, j | k in s.streams && 0 <= i < j < |s.streams[k].sent|
      ensures s.streams[k].sent[i].emission < s.streams[k].sent[j].emission
    {
      var acc := Accepted(s.streams[k]);
      assert OrderInv(s, k);
      assert acc[i] == s.streams[k].sent[i].emission && acc[j] == s.streams[k].sent[j].emission;
      assert OfferedTo(s.streams[k], acc[i]);
    }
  }

  lemma {:induction false} FewerFlights(s: State, steps: seq<Step>, n: nat, m: nat)
    requires AtMost(s, steps, n) && n <= m
    ensures AtMost(s, steps, m)
    decreases |steps|
  {
    if steps != [] {
      FewerFlights(Next(s, steps[0]), steps[1..], n, m);
    }
  }

  // ----- the exact bound -----

  ghost predicate AlwaysInOrder(n: nat) {
    forall steps :: AtMost(INIT, steps, n) ==> InOrder(Exec(INIT, steps))
  }

  /** Over all runs in which at most n emissions are ever in delivery at once, every client is sent events in
      the order in which they were emitted: exactly if n is at most 1. */
  lemma InOrderIff(n: nat)
    ensures AlwaysInOrder(n) <==> n <= 1
  {
    if n <= 1 {
      forall steps | AtMost(INIT, steps, n)
        ensures InOrder(Exec(INIT, steps))
      {
        FewerFlights(INIT, steps, n, 1);
        UnheardHoldsFrom(INIT, steps);
        UnheardIsInOrder(Exec(INIT, steps));
      }
    } else {
      SentOutOfOrder(n);
      var steps :| Leads(steps, OutOfOrder(), n);
      var sent := OutOfOrder().streams[0].sent;
      assert sent[0].emission > sent[1].emission;
      assert !InOrder(Exec(INIT, steps));
    }
  }

  // ----- a run with two in delivery -----

  ghost predicate Leads(steps: seq<Step>, s: State, n: nat) {
    Exec(INIT, steps) == s && AtMost(INIT, steps, n)
  }

  lemma {:induction false} ExecSnoc(s: State, steps: seq<Step>, step: Step, n: nat)
    requires AtMost(s, steps, n) && |Next(Exec(s, steps), step).flights| <= n
    ensures Exec(s, steps + [step]) == Next(Exec(s, steps), step) && AtMost(s, steps + [step], n)
    decreases |steps|
  {
    var longer := steps + [step];
    if steps == [] {
      assert longer[0] == step && longer[1..] == [];
    } else {
      assert longer[0] == steps[0] && longer[1..] == steps[1..] + [step];
      ExecSnoc(Next(s, steps[0]), steps[1..], step, n);
    }
  }

  /** Some run reaches the state with at most n emissions ever in delivery. */
  ghost predicate Reachable(s: State, n: nat) {
    exists steps :: Leads(steps, s, n)
  }

  lemma Then(s: State, step: Step, s': State, n: nat)
    requires Reachable(s, n) && Next(s, step) == s' && |s'.flights| <= n
    ensures Reachable(s', n)
  {
    var steps :| Leads(steps, s, n);
    ExecSnoc(INIT, steps, step, n);
    assert Leads(steps + [step], s', n);
  }

  /** One stream, and the second emission begun before the first has been delivered. */
  function BothInDelivery(): State {
    State(2, [0], map[0 := [0], 1 := [0]], map[0 := Stream(0, [], None, [], [])], 0, {(0, 1)})
  }

  lemma CanEmitTwice(n: nat)
    requires n >= 2
    ensures Reachable(BothInDelivery(), n)
  {
    var s1 := INIT.(subscribers := [0], streams := map[0 := Stream(0, [], None, [], [])]);
    var s2 := s1.(emitted := 1, flights := map[0 := [0]]);
    assert Leads([], INIT, n);
    Then(INIT, Subscribe(0), s1, n);
    Then(s1, Emit, s2, n);
    assert (set e | e in s2.flights :: (e, 1)) == {(0, 1)};
    assert s2.flights[1 := [0]] == BothInDelivery().flights;
    Then(s2, Emit, BothInDelivery(), n);
  }

  /** The stream has both emissions in its buffer, the later one first. */
  function Swapped(): State {
    State(2, [0], map[], map[0 := Stream(0, [1, 0], None, [], [])], 0, {(0, 1)})
  }

  lemma CanSwap(n: nat)
    requires n >= 2
    ensures Reachable(Swapped(), n)
  {
    CanEmitTwice(n);
    var s := BothInDelivery();
    var half := s.(flights := map[0 := [0]], streams := map[0 := Stream(0, [1], None, [], [])]);
    assert s.flights - {1} == half.flights && [] + [1] == [1];
    DeliverLast(s, 1, half, n);
    assert half.flights - {0} == map[] && [1] + [0] == [1, 0];
    DeliverLast(half, 0, Swapped(), n);
  }

  lemma DeliverLast(s: State, e: Emission, s': State, n: nat)
    requires Reachable(s, n) && |s'.flights| <= n && s.streams.Keys == {0} && |s.streams[0].buffer| < BUFFER
    requires e in s.flights && s.flights[e] == [0]
    requires s' == s.(flights := s.flights - {e}, streams := map[0 := s.streams[0].(buffer := s.streams[0].buffer + [e])])
    ensures Reachable(s', n)
  {
    assert s.flights[e][1..] == [];
    assert DoDeliver(s, e) == s';
    Then(s, Deliver(e), s', n);
  }

  /** The client has been sent the later emission first. */
  function OutOfOrder(): State {
    Swapped().(counter := 2, streams := map[0 := Stream(0, [], None, [Sent(1, 1), Sent(2, 0)], [])])
  }

  /** Two emissions in delivery at once are enough for that. */
  lemma SentOutOfOrder(n: nat)
    requires n >= 2
    ensures Reachable(OutOfOrder(), n)
  {
    CanSwap(n);
    var s := Swapped();
    DrainOne(s, 1, [0], n);
    var s' := s.(counter := 1, streams := map[0 := Stream(0, [0], None, [Sent(1, 1)], [])]);
    assert [] + [Sent(1, 1)] == [Sent(1, 1)];
    DrainOne(s', 0, [], n);
    assert [Sent(1, 1)] + [Sent(2, 0)] == [Sent(1, 1), Sent(2, 0)];
  }

  /** The only stream, with nothing in hand, sends the front of its buffer. */
  lemma DrainOne(s: State, e: Emission, rest: seq<Emission>, n: nat)
    requires Reachable(s, n) && |s.flights| <= n
    requires s.streams.Keys == {0} && s.streams[0].holding == None && s.streams[0].buffer == [e] + rest
    ensures Reachable(s.(
              counter := s.counter + 1,
              streams := map[0 := s.streams[0].(buffer := rest, sent := s.streams[0].sent + [Sent(s.counter + 1, e)])]), n)
  {
    var st := s.streams[0];
    assert st.buffer[1..] == rest;
    var held := st.(buffer := rest, holding := Some(Sent(s.counter + 1, e)));
    var taken := s.(counter := s.counter + 1, streams := map[0 := held]);
    Then(s, Take(0), taken, n);
    var sent := held.(holding := None, sent := st.sent + [Sent(s.counter + 1, e)]);
    Then(taken, Send(0), taken.(streams := map[0 := sent]), n);
  }
}
