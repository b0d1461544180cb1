/** When a stream opens, what ends it, what it receives, and what moves the listener and its queue. */
module UpdateStreams {
  import opened Options
  import opened UpdateHub

  /** The delivery at the head of the queue was queued by the active listener. */
  predicate HeadIsActive(s: State) {
    s.queue != [] && s.active == Some(s.queue[0].gen)
  }

  /**
   * What ends one stream: its own end, a stop, the active listener hearing again after a gap, a
   * delivery that its stream does not take, and a delivery that fails for all.
   */
  predicate Ends(s: State, step: Step, id: nat) {
    || step == End(id)
    || step == Stop
    || (step.OnListen? && s.active == Some(step.gen) && step.gen in s.registered)
    || (step.Deliver? && id in step.failing && HeadIsActive(s))
    || (step == DeliveryFailed && HeadIsActive(s))
  }

  /** What a step tells the live streams. */
  function Told(s: State, step: Step): seq<Event> {
    if step.Deliver? && HeadIsActive(s) then [s.queue[0].event] else []
  }

  /**
   * A live stream outlives a step exactly when the step is none of these. It then has received what
   * was delivered and nothing else; another stream's end leaves it alone.
   */
  lemma {:induction false} StreamEndsExactly(s: State, step: Step, id: nat)
    requires Next(s, step).Some? && id in s.subs
    ensures id in Next(s, step).value.subs <==> !Ends(s, step, id)
    ensures
      !Ends(s, step, id) ==>
        Next(s, step).value.subs[id] == s.subs[id].(received := s.subs[id].received + Told(s, step))
  {
    assert s.subs[id].received + [] == s.subs[id].received;
  }

  /** A stream opens by its own subscription only, and has received nothing then. */
  lemma StreamOpensExactly(s: State, step: Step, id: nat)
    requires Next(s, step).Some? && id !in s.subs
    ensures id in Next(s, step).value.subs <==> step == Subscribe(id)
    ensures
      step == Subscribe(id) ==>
        && Next(s, step).value.subs[id].received == []
        && s.active == Some(Next(s, step).value.subs[id].gen)
        && Next(s, step).value.subs[id].openedAt == |s.committed|
  {
  }

  /** One can subscribe exactly while a listener that has begun to hear is active. */
  lemma SubscribesExactly(s: State, id: nat)
    requires id !in s.subs
    ensures Next(s, Subscribe(id)).Some? <==> s.active.Some? && s.active.value in s.registered
  {
  }

  /**
   * The active listener changes in three ways only: a first one starts, under a number never used
   * before; its own start fails; or the hub stops.
   */
  lemma ListenerChangesExactly(s: State, step: Step)
    requires Next(s, step).Some?
    ensures
      var after := Next(s, step).value;
      && (step == Ensure && s.active.None? ==> after.active == Some(s.nextGen) && after.nextGen == s.nextGen + 1)
      && (step == Stop || (step.StartFailed? && s.active == Some(step.gen)) ==> after.active.None?)
      && (after.active != s.active ==>
            || (step == Ensure && s.active.None?) || step == Stop
            || (step.StartFailed? && s.active == Some(step.gen)))
      && (after.registered ==
           if step.OnListen? && s.active == Some(step.gen) then s.registered + {step.gen} else s.registered)
  {
  }

  /** The queue: a valid payload heard by the active listener joins it, and each delivery leaves its head. */
  lemma QueueChangesExactly(s: State, step: Step)
    requires Next(s, step).Some?
    ensures
      var heard := step.Commit? && step.payload.Some? && s.active.Some? && s.active.value in s.connected;
      Next(s, step).value.queue ==
        if heard then s.queue + [Delivery(s.active.value, step.payload.value)]
        else if step.Deliver? || step.DeliveryFailed? then s.queue[1..]
        else s.queue
  {
  }

  /** What the steps of a run from the n-th on told the live streams. */
  function ToldSince(steps: seq<Step>, n: nat): seq<Event>
    requires n <= |steps| && Exec(START, steps).Some?
  {
    if n == |steps| then []
    else
      var front := steps[..|steps| - 1];
      ToldSince(front, n) + Told(Exec(START, front).value, steps[|steps| - 1])
  }

  lemma {:induction false} PrefixRuns(steps: seq<Step>, n: nat)
    requires n <= |steps| && Exec(START, steps).Some?
    ensures Exec(START, steps[..n]).Some?
    decreases |steps|
  {
    if n == |steps| {
      assert steps[..n] == steps;
    } else {
      assert steps[..|steps| - 1][..n] == steps[..n];
      PrefixRuns(steps[..|steps| - 1], n);
    }
  }

  /** The k-th step of a run ends the stream. */
  ghost predicate EndsAt(steps: seq<Step>, k: nat, id: nat)
    requires k < |steps| && Exec(START, steps).Some?
  {
    Exec(START, steps[..k]).Some? && Ends(Exec(START, steps[..k]).value, steps[k], id)
  }

  /**
   * Over whole runs: a stream that none of these ends stays live, whatever becomes of the others,
   * and what it has received since is every event delivered since, in order.
   */
  lemma {:induction false} StreamLivesOn(steps: seq<Step>, n: nat, id: nat)
    requires n <= |steps| && Exec(START, steps).Some? && Exec(START, steps[..n]).Some?
    requires id in Exec(START, steps[..n]).value.subs
    requires forall k :: n <= k < |steps| ==> !EndsAt(steps, k, id)
    ensures
      var before := Exec(START, steps[..n]).value.subs[id];
      var after := Exec(START, steps).value;
      id in after.subs && after.subs[id] == before.(received := before.received + ToldSince(steps, n))
    decreases |steps|
  {
    if n == |steps| {
      assert steps[..n] == steps;
      assert Exec(START, steps[..n]).value.subs[id].received + []
          == Exec(START, steps[..n]).value.subs[id].received;
    } else {
      var front := steps[..|steps| - 1];
      assert front[..n] == steps[..n];
      forall k | n <= k < |front|
        ensures !EndsAt(front, k, id)
      {
        assert front[..k] == steps[..k];
        assert !EndsAt(steps, k, id);
      }
      StreamLivesOn(front, n, id);
      LastStepKeeps(steps, front, n, id);
    }
  }

  lemma LastStepKeeps(steps: seq<Step>, front: seq<Step>, n: nat, id: nat)
    requires n < |steps| && Exec(START, steps).Some? && front == steps[..|steps| - 1]
    requires Exec(START, steps[..n]).Some? && id in Exec(START, steps[..n]).value.subs
    requires !EndsAt(steps, |steps| - 1, id) && Exec(START, front).Some?
    requires
      var before := Exec(START, steps[..n]).value.subs[id];
      var now := Exec(START, front).value;
      id in now.subs && now.subs[id] == before.(received := before.received + ToldSince(front, n))
    ensures
      var before := Exec(START, steps[..n]).value.subs[id];
      var after := Exec(START, steps).value;
      id in after.subs && after.subs[id] == before.(received := before.received + ToldSince(steps, n))
  {
    var now := Exec(START, front).value;
    var before := Exec(START, steps[..n]).value.subs[id];
    var step := steps[|steps| - 1];
    StreamEndsExactly(now, step, id);
    assert before.received + (ToldSince(front, n) + Told(now, step))
        == (before.received + ToldSince(front, n)) + Told(now, step);
  }

  // ---- Updates arrive ----

  /** A run is its steps one after the other, from a hub with nothing in it. */
  lemma RunsStepByStep(steps: seq<Step>, step: Step)
    ensures Exec(START, []) == Some(START)
    ensures Exec(START, steps).Some? ==> Exec(START, steps + [step]) == Next(Exec(START, steps).value, step)
  {
    assert (steps + [step])[..|steps|] == steps;
  }

  /** A first client gets its stream once the listener has been started and hears. */
  lemma FirstStreamOpens(id: nat) returns (started: State, hearing: State, live: State)
    ensures Next(START, Ensure) == Some(started) && started.active.Some?
    ensures Next(started, OnListen(started.active.value)) == Some(hearing)
    ensures Next(hearing, Subscribe(id)) == Some(live) && id in live.subs && live.subs[id].gen in live.connected
  {
    started := Next(START, Ensure).value;
    hearing := Next(started, OnListen(0)).value;
    live := Next(hearing, Subscribe(id)).value;
  }

  /** The hub after every queued delivery has run and no stream failed. */
  function Drained(s: State): State
    decreases |s.queue|
  {
    if s.queue == [] then s else Drained(Next(s, Deliver({})).value)
  }

  lemma OneDelivered(s: State, id: nat) returns (next: State)
    requires s.queue != [] && id in s.subs && s.active == Some(s.subs[id].gen)
    ensures Next(s, Deliver({})) == Some(next) && next.queue == s.queue[1..] && next.active == s.active
    ensures id in next.subs && next.subs[id].gen == s.subs[id].gen
    ensures next.subs[id].received + PendingOf(next.queue, s.subs[id].gen)
         == s.subs[id].received + PendingOf(s.queue, s.subs[id].gen)
  {
    next := Next(s, Deliver({})).value;
    StreamEndsExactly(s, Deliver({}), id);
    TakesHead(s.subs[id].received, s.queue, s.subs[id].gen);
  }

  lemma TakesHead(received: seq<Event>, queue: seq<Delivery>, gen: nat)
    requires queue != []
    ensures (received + (if queue[0].gen == gen then [queue[0].event] else [])) + PendingOf(queue[1..], gen)
         == received + PendingOf(queue, gen)
  {
  }

  lemma {:induction false} DrainDelivers(s: State, id: nat)
    requires id in s.subs && s.active == Some(s.subs[id].gen)
    ensures Drained(s).queue == [] && id in Drained(s).subs
    ensures Drained(s).subs[id].received == s.subs[id].received + PendingOf(s.queue, s.subs[id].gen)
    decreases |s.queue|
  {
    if s.queue == [] {
      assert s.subs[id].received + [] == s.subs[id].received;
    } else {
      var next := OneDelivered(s, id);
      DrainDelivers(next, id);
    }
  }

  /**
   * An update arrives: in every reachable state, an event committed while a stream's listener hears
   * is the last thing the stream has received once the queue has drained.
   */
  lemma {:induction false} UpdateArrives(steps: seq<Step>, id: nat, e: Event)
    requires Exec(START, steps).Some? && id in Exec(START, steps).value.subs
    requires Exec(START, steps).value.subs[id].gen in Exec(START, steps).value.connected
    ensures
      var s := Exec(START, steps).value;
      var told := Next(s, Commit(Some(e)));
      && told.Some? && id in Drained(told.value).subs
      && Drained(told.value).subs[id].received
         == s.subs[id].received + (PendingOf(s.queue, s.subs[id].gen) + [e])
  {
    var s := Exec(START, steps).value;
    RunKeepsInv(steps);
    assert SubFacts(s, s.subs[id]);
    PendingAppends(s.queue, Delivery(s.subs[id].gen, e), s.subs[id].gen);
    DrainDelivers(Next(s, Commit(Some(e))).value, id);
  }
}
