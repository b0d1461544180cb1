/**
 * The Admin update fan-out: listener generations, reconnects, the delivery queue, and the live
 * subscriptions, with an environment that commits events and drops and restores the connection.
 */
module UpdateHub {
  import opened Options

  datatype Event = Event(subjectType: string, subjectId: string)

  /** A delivery waiting in the queue, with the listener generation that queued it. */
  datatype Delivery = Delivery(gen: nat, event: Event)

  /**
   * A live subscription: what its stream has received, and, for the record, the generation and
   * the commit count at its opening and the deliveries that were then still queued.
   */
  datatype Sub = Sub(gen: nat, openedAt: nat, backlog: seq<Event>, received: seq<Event>)

  /**
   * The hub, and around it the environment: the commit log, the generations whose connection
   * listens, and the commit count when each one last began and ceased to listen.
   */
  datatype State = State(
    active: Option<nat>, nextGen: nat, registered: set<nat>, queue: seq<Delivery>, subs: map<nat, Sub>,
    committed: seq<Event>, connected: set<nat>, since: map<nat, nat>, lost: map<nat, nat>)

  datatype Step =
    | Ensure
    | OnListen(gen: nat)
    | StartFailed(gen: nat)
    | Drop(gen: nat)
    | Commit(payload: Option<Event>)
    | Deliver(failing: set<nat>)
    | DeliveryFailed
    | Subscribe(id: nat)
    | End(id: nat)
    | Stop

  /** The queued events of one generation, in order. */
  function PendingOf(queue: seq<Delivery>, gen: nat): seq<Event> {
    if queue == [] then []
    else (if queue[0].gen == gen then [queue[0].event] else []) + PendingOf(queue[1..], gen)
  }

  /** The streams after one delivery: those that fail are closed, the others receive the event. */
  function Delivered(subs: map<nat, Sub>, event: Event, failing: set<nat>): map<nat, Sub> {
    map id | id in subs && id !in failing :: subs[id].(received := subs[id].received + [event])
  }

  function CloseAll(s: State): State {
    s.(subs := map[])
  }

  /**
   * One step. It is refused where the environment or the caller cannot take it: a generation
   * must exist to listen, and one subscribes only while a registered listener is active.
   */
  function Next(s: State, step: Step): Option<State> {
    match step
    case Ensure =>
      if s.active.Some? then Some(s) else Some(s.(active := Some(s.nextGen), nextGen := s.nextGen + 1))
    case OnListen(gen) => (
      if gen >= s.nextGen || gen in s.connected then None
      else
        var heard := s.(connected := s.connected + {gen}, since := s.since[gen := |s.committed|]);
        if s.active != Some(gen) then Some(heard)
        else
          var open := if gen in s.registered then CloseAll(heard) else heard;
          Some(open.(registered := s.registered + {gen}))
    )
    case StartFailed(gen) =>
      if gen >= s.nextGen || gen in s.registered then None
      else if s.active == Some(gen) then Some(s.(active := None))
      else Some(s)
    case Drop(gen) =>
      if gen !in s.connected then None
      else Some(s.(connected := s.connected - {gen}, lost := s.lost[gen := |s.committed|]))
    case Commit(payload) => (
      if payload.None? then Some(s)
      else
        var logged := s.(committed := s.committed + [payload.value]);
        if s.active.Some? && s.active.value in s.connected
        then Some(logged.(queue := s.queue + [Delivery(s.active.value, payload.value)]))
        else Some(logged)
    )
    case Deliver(failing) => (
      if s.queue == [] then None
      else
        var rest := s.(queue := s.queue[1..]);
        if s.active != Some(s.queue[0].gen) then Some(rest)
        else Some(rest.(subs := Delivered(s.subs, s.queue[0].event, failing)))
    )
    case DeliveryFailed => (
      if s.queue == [] then None
      else
        var rest := s.(queue := s.queue[1..]);
        if s.active != Some(s.queue[0].gen) then Some(rest) else Some(CloseAll(rest))
    )
    case Subscribe(id) =>
      if s.active.None? || s.active.value !in s.registered || id in s.subs then None
      else Some(s.(subs := s.subs[id := Sub(s.active.value, |s.committed|, PendingOf(s.queue, s.active.value), [])]))
    case End(id) => Some(s.(subs := s.subs - {id}))
    case Stop => Some(CloseAll(s).(active := None))
  }

  function Exec(s: State, steps: seq<Step>): Option<State> {
    if steps == [] then Some(s)
    else
      var before := Exec(s, steps[..|steps| - 1]);
      if before.None? then None else Next(before.value, steps[|steps| - 1])
  }

  const START := State(None, 0, {}, [], map[], [], {}, map[], map[])

  // ---- What every run keeps ----

  /** How far into the commit log a subscription's listener has heard. */
  function Heard(s: State, sub: Sub): nat {
    if sub.gen in s.connected then |s.committed|
    else if sub.gen in s.lost && s.lost[sub.gen] > sub.openedAt then s.lost[sub.gen]
    else sub.openedAt
  }

  /** Nothing is missed, doubled or swapped: received and queued are the backlog and the heard commits. */
  predicate Complete(s: State, sub: Sub) {
    && sub.openedAt <= Heard(s, sub) <= |s.committed|
    && sub.received + PendingOf(s.queue, sub.gen) == sub.backlog + s.committed[sub.openedAt..Heard(s, sub)]
  }

  /** A live subscription is the active, registered generation's, and opened after its last gap. */
  predicate SubFacts(s: State, sub: Sub) {
    && s.active == Some(sub.gen) && sub.gen in s.registered
    && (sub.gen in s.connected && sub.gen in s.since ==> s.since[sub.gen] <= sub.openedAt)
    && Complete(s, sub)
  }

  ghost predicate GensCounted(s: State) {
    && (s.active.Some? ==> s.active.value < s.nextGen)
    && (forall g :: g in s.registered || g in s.connected ==> g < s.nextGen)
    && (forall i :: 0 <= i < |s.queue| ==> s.queue[i].gen < s.nextGen)
  }

  ghost predicate MarksCounted(s: State) {
    && (forall g :: g in s.lost ==> s.lost[g] <= |s.committed|)
    && (forall g :: g in s.since ==> s.since[g] <= |s.committed|)
  }

  ghost predicate Counted(s: State) {
    GensCounted(s) && MarksCounted(s)
  }

  ghost predicate Inv(s: State) {
    Counted(s) && forall id :: id in s.subs ==> SubFacts(s, s.subs[id])
  }

  lemma {:induction false} PendingAppends(queue: seq<Delivery>, d: Delivery, gen: nat)
    ensures PendingOf(queue + [d], gen) == PendingOf(queue, gen) + (if d.gen == gen then [d.event] else [])
  {
    if queue == [] {
      assert queue + [d] == [d] && [d][1..] == [];
    } else {
      PendingAppends(queue[1..], d, gen);
      assert (queue + [d])[1..] == queue[1..] + [d];
    }
  }

  lemma StepKeepsGens(s: State, step: Step)
    requires GensCounted(s) && Next(s, step).Some?
    ensures GensCounted(Next(s, step).value)
  {
  }

  lemma StepKeepsMarks(s: State, step: Step)
    requires MarksCounted(s) && Next(s, step).Some?
    ensures MarksCounted(Next(s, step).value)
  {
  }

  lemma StepKeepsCounted(s: State, step: Step)
    requires Counted(s) && Next(s, step).Some?
    ensures Counted(Next(s, step).value)
  {
    StepKeepsGens(s, step);
    StepKeepsMarks(s, step);
  }

  lemma CommitKeepsFacts(s: State, e: Event, sub: Sub)
    requires Counted(s) && SubFacts(s, sub)
    ensures SubFacts(Next(s, Commit(Some(e))).value, sub)
  {
    var after := Next(s, Commit(Some(e))).value;
    PendingAppends(s.queue, Delivery(sub.gen, e), sub.gen);
    if sub.gen in s.connected {
      assert after.committed[sub.openedAt..] == s.committed[sub.openedAt..] + [e];
      CompleteExtends(s, sub, e);
    } else {
      assert after.committed[sub.openedAt..Heard(s, sub)] == s.committed[sub.openedAt..Heard(s, sub)];
    }
  }

  lemma CompleteExtends(s: State, sub: Sub, e: Event)
    requires Complete(s, sub) && sub.gen in s.connected
    ensures
      sub.received + (PendingOf(s.queue, sub.gen) + [e]) == sub.backlog + (s.committed[sub.openedAt..] + [e])
  {
    var pending := PendingOf(s.queue, sub.gen);
    assert sub.received + (pending + [e]) == (sub.received + pending) + [e];
    assert s.committed[sub.openedAt..Heard(s, sub)] == s.committed[sub.openedAt..];
  }

  lemma DeliverKeepsFacts(s: State, failing: set<nat>, id: nat)
    requires s.queue != [] && id in s.subs && SubFacts(s, s.subs[id]) && id in Next(s, Deliver(failing)).value.subs
    ensures SubFacts(Next(s, Deliver(failing)).value, Next(s, Deliver(failing)).value.subs[id])
  {
    var sub := s.subs[id];
    var d := s.queue[0];
    var rest := PendingOf(s.queue[1..], sub.gen);
    if d.gen == sub.gen {
      assert sub.received + ([d.event] + rest) == (sub.received + [d.event]) + rest;
    } else {
      assert [] + rest == rest;
    }
  }

  lemma SubscribeStartsComplete(s: State, id: nat)
    requires Counted(s) && Next(s, Subscribe(id)).Some?
    ensures SubFacts(Next(s, Subscribe(id)).value, Next(s, Subscribe(id)).value.subs[id])
  {
    var sub := Next(s, Subscribe(id)).value.subs[id];
    assert s.committed[|s.committed|..|s.committed|] == [];
    assert [] + sub.backlog == sub.backlog + [];
  }

  /** Facts of a subscription that a step neither touches nor tells anything new. */
  lemma FactsStay(s: State, after: State, sub: Sub)
    requires SubFacts(s, sub) && after.active == s.active
    requires s.registered <= after.registered && after.committed == s.committed
    requires PendingOf(after.queue, sub.gen) == PendingOf(s.queue, sub.gen) && Heard(after, sub) == Heard(s, sub)
    requires sub.gen in after.connected && sub.gen in after.since ==> after.since[sub.gen] <= sub.openedAt
    ensures SubFacts(after, sub)
  {
  }

  lemma DropKeepsFacts(s: State, gen: nat, sub: Sub)
    requires Counted(s) && SubFacts(s, sub) && Next(s, Drop(gen)).Some?
    ensures SubFacts(Next(s, Drop(gen)).value, sub)
  {
    var after := Next(s, Drop(gen)).value;
    assert Heard(after, sub) == Heard(s, sub);
    FactsStay(s, after, sub);
  }

  lemma ListenKeepsFacts(s: State, gen: nat, id: nat)
    requires Inv(s) && Next(s, OnListen(gen)).Some? && id in Next(s, OnListen(gen)).value.subs
    ensures id in s.subs && SubFacts(Next(s, OnListen(gen)).value, s.subs[id])
  {
    assert SubFacts(s, s.subs[id]);
    FactsStay(s, Next(s, OnListen(gen)).value, s.subs[id]);
  }

  lemma FailureKeepsFacts(s: State, id: nat)
    requires Inv(s) && Next(s, DeliveryFailed).Some? && id in Next(s, DeliveryFailed).value.subs
    ensures SubFacts(Next(s, DeliveryFailed).value, Next(s, DeliveryFailed).value.subs[id])
  {
    assert SubFacts(s, s.subs[id]);
    DeliverKeepsFacts(s, {}, id);
  }

  lemma SubscribeKeepsFacts(s: State, newId: nat, id: nat)
    requires Inv(s) && Next(s, Subscribe(newId)).Some? && id in Next(s, Subscribe(newId)).value.subs
    ensures SubFacts(Next(s, Subscribe(newId)).value, Next(s, Subscribe(newId)).value.subs[id])
  {
    if newId == id {
      SubscribeStartsComplete(s, id);
    } else {
      assert SubFacts(s, s.subs[id]);
      FactsStay(s, Next(s, Subscribe(newId)).value, s.subs[id]);
    }
  }

  lemma QuietStepKeepsFacts(s: State, step: Step, id: nat)
    requires step.Ensure? || step.StartFailed? || step.End? || step == Commit(None)
    requires Inv(s) && Next(s, step).Some? && id in Next(s, step).value.subs
    ensures SubFacts(Next(s, step).value, Next(s, step).value.subs[id])
  {
    assert SubFacts(s, s.subs[id]);
    FactsStay(s, Next(s, step).value, s.subs[id]);
  }

  lemma StepKeepsSub(s: State, step: Step, id: nat)
    requires Inv(s) && Next(s, step).Some? && id in Next(s, step).value.subs
    ensures SubFacts(Next(s, step).value, Next(s, step).value.subs[id])
  {
    match step
    case OnListen(gen) => ListenKeepsFacts(s, gen, id);
    case Drop(gen) => DropKeepsFacts(s, gen, s.subs[id]);
    case Commit(Some(event)) => CommitKeepsFacts(s, event, s.subs[id]);
    case Deliver(failing) => DeliverKeepsFacts(s, failing, id);
    case DeliveryFailed => FailureKeepsFacts(s, id);
    case Subscribe(newId) => SubscribeKeepsFacts(s, newId, id);
    case Stop =>
    case _ => QuietStepKeepsFacts(s, step, id);
  }

  lemma StepKeepsInv(s: State, step: Step)
    requires Inv(s) && Next(s, step).Some?
    ensures Inv(Next(s, step).value)
  {
    StepKeepsCounted(s, step);
    forall id | id in Next(s, step).value.subs
      ensures SubFacts(Next(s, step).value, Next(s, step).value.subs[id])
    {
      StepKeepsSub(s, step, id);
    }
  }

  lemma {:induction false} RunKeepsInv(steps: seq<Step>)
    requires Exec(START, steps).Some?
    ensures Inv(Exec(START, steps).value)
  {
    if steps != [] {
      RunKeepsInv(steps[..|steps| - 1]);
      StepKeepsInv(Exec(START, steps[..|steps| - 1]).value, steps[|steps| - 1]);
    }
  }

  // ---- The guarantees ----

  /**
   * No live subscription silently misses an update: after any run, while its listener hears, what
   * it has received and has queued is, in commit order and once each, the backlog it opened with
   * and then every event committed since.
   */
  lemma NoSilentMiss(steps: seq<Step>, id: nat)
    requires Exec(START, steps).Some? && id in Exec(START, steps).value.subs
    requires Exec(START, steps).value.subs[id].gen in Exec(START, steps).value.connected
    ensures
      var s := Exec(START, steps).value;
      var sub := s.subs[id];
      && sub.openedAt <= |s.committed|
      && sub.received + PendingOf(s.queue, sub.gen) == sub.backlog + s.committed[sub.openedAt..]
  {
    RunKeepsInv(steps);
    var s := Exec(START, steps).value;
    var sub := s.subs[id];
    assert SubFacts(s, sub);
    assert s.committed[sub.openedAt..|s.committed|] == s.committed[sub.openedAt..];
  }

  /**
   * A subscription open across a connection gap is closed before the listener hears anything
   * again: whoever is live while a listener hears opened after its last reconnection.
   */
  lemma GapClosesSubscriptions(steps: seq<Step>, id: nat)
    requires Exec(START, steps).Some? && id in Exec(START, steps).value.subs
    ensures
      var s := Exec(START, steps).value;
      var sub := s.subs[id];
      && s.active == Some(sub.gen)
      && (sub.gen in s.connected && sub.gen in s.since ==> s.since[sub.gen] <= sub.openedAt)
  {
    RunKeepsInv(steps);
    assert SubFacts(Exec(START, steps).value, Exec(START, steps).value.subs[id]);
  }

  lemma StepKeepsNew(s: State, step: Step, gen: nat)
    requires Next(s, step).Some? && gen < s.nextGen && s.active != Some(gen)
    ensures gen < Next(s, step).value.nextGen && Next(s, step).value.active != Some(gen)
  {
  }

  lemma {:induction false} GenerationsAreNew(steps: seq<Step>, n: nat, gen: nat)
    requires n <= |steps| && Exec(START, steps).Some? && Exec(START, steps[..n]).Some?
    requires gen < Exec(START, steps[..n]).value.nextGen && Exec(START, steps[..n]).value.active != Some(gen)
    ensures gen < Exec(START, steps).value.nextGen && Exec(START, steps).value.active != Some(gen)
    decreases |steps|
  {
    if n == |steps| {
      assert steps[..n] == steps;
    } else {
      assert steps[..|steps| - 1][..n] == steps[..n];
      GenerationsAreNew(steps[..|steps| - 1], n, gen);
      StepKeepsNew(Exec(START, steps[..|steps| - 1]).value, steps[|steps| - 1], gen);
    }
  }

  /** Once a listener generation is no longer active, nothing it queued is ever delivered. */
  lemma {:induction false} StoppedNeverDelivers(steps: seq<Step>, n: nat, gen: nat, failing: set<nat>)
    requires n <= |steps| && Exec(START, steps).Some? && Exec(START, steps[..n]).Some?
    requires gen < Exec(START, steps[..n]).value.nextGen && Exec(START, steps[..n]).value.active != Some(gen)
    requires Exec(START, steps).value.queue != [] && Exec(START, steps).value.queue[0].gen == gen
    ensures Next(Exec(START, steps).value, Deliver(failing)).Some?
    ensures Next(Exec(START, steps).value, Deliver(failing)).value.subs == Exec(START, steps).value.subs
  {
    GenerationsAreNew(steps, n, gen);
  }

  // ---- The hub as it is written ----

  /** What the record keeps of a subscription's opening. */
  datatype Opening = Opening(gen: nat, openedAt: nat, backlog: seq<Event>)

  class Hub {
    var active: Option<nat>
    var nextGen: nat
    var registered: set<nat>
    var queue: seq<Delivery>
    /** The live streams, with what each has received. */
    var subscriptions: map<nat, seq<Event>>
    ghost var openings: map<nat, Opening>
    ghost var committed: seq<Event>
    ghost var connected: set<nat>
    ghost var since: map<nat, nat>
    ghost var lost: map<nat, nat>

    ghost predicate Valid()
      reads this
    {
      subscriptions.Keys <= openings.Keys
    }

    ghost function Subs(): map<nat, Sub>
      requires Valid()
      reads this
    {
      map id | id in subscriptions ::
        Sub(openings[id].gen, openings[id].openedAt, openings[id].backlog, subscriptions[id])
    }

    ghost function Value(): State
      requires Valid()
      reads this
    {
      State(active, nextGen, registered, queue, Subs(), committed, connected, since, lost)
    }

    constructor ()
      ensures Valid() && Value() == START
    {
      active, nextGen, registered, queue, subscriptions := None, 0, {}, [], map[];
      openings, committed, connected, since, lost := map[], [], {}, map[], map[];
    }

    method CloseSubscription(id: nat)
      modifies this`subscriptions
      ensures subscriptions == old(subscriptions) - {id}
    {
      subscriptions := subscriptions - {id};
    }

    method CloseAllSubscriptions()
      modifies this`subscriptions
      ensures subscriptions == map[]
    {
      var ids := subscriptions.Keys;
      while ids != {}
        invariant subscriptions.Keys == ids
        decreases |ids|
      {
        var id :| id in ids;
        CloseSubscription(id);
        ids := ids - {id};
      }
    }

    /** Hands an event to every stream; `failing` are the streams whose enqueue throws. */
    method DeliverEvent(event: Event, failing: set<nat>)
      requires Valid()
      modifies this`subscriptions
      ensures Valid() && Subs() == Delivered(old(Subs()), event, failing)
    {
      var ids := subscriptions.Keys;
      ghost var before := subscriptions;
      while ids != {}
        invariant ids <= before.Keys
        invariant forall id :: id in subscriptions <==> id in before && (id in ids || id !in failing)
        invariant forall id :: id in subscriptions ==>
                    subscriptions[id] == before[id] + if id in ids then [] else [event]
        decreases |ids|
      {
        var id :| id in ids;
        if id in failing {
          CloseSubscription(id);
        } else {
          subscriptions := subscriptions[id := subscriptions[id] + [event]];
        }
        ids := ids - {id};
      }
    }

    method EnsureListener() returns (gen: nat)
      requires Valid()
      modifies this
      ensures Valid() && Next(old(Value()), Ensure) == Some(Value()) && active == Some(gen)
    {
      if active.None? {
        active := Some(nextGen);
        nextGen := nextGen + 1;
      }
      gen := active.value;
    }

    /** The callback that runs after each (re)registration of a listener. */
    method Listening(gen: nat)
      requires gen < nextGen && gen !in connected
      requires Valid()
      modifies this
      ensures Valid() && Next(old(Value()), OnListen(gen)) == Some(Value())
    {
      connected := connected + {gen};
      since := since[gen := |committed|];
      if active != Some(gen) {
        return;
      }
      if gen in registered {
        CloseAllSubscriptions();
      }
      registered := registered + {gen};
    }

    method ListenFailed(gen: nat)
      requires gen < nextGen && gen !in registered
      requires Valid()
      modifies this
      ensures Valid() && Next(old(Value()), StartFailed(gen)) == Some(Value())
    {
      if active == Some(gen) {
        active := None;
      }
    }

    /** The callback that a listener runs for one notification. */
    method Notify(gen: nat, payload: Option<Event>)
      modifies this`queue
      ensures queue == old(queue) + if active == Some(gen) && payload.Some? then [Delivery(gen, payload.value)] else []
    {
      if active != Some(gen) {
        return;
      }
      if payload.None? {
        return;
      }
      queue := queue + [Delivery(gen, payload.value)];
    }

    /** Every connected listener runs its callback, in whatever order. */
    method NotifyAll(payload: Option<Event>, hearers: set<nat>)
      modifies this`queue
      ensures queue == old(queue) +
        if active.Some? && active.value in hearers && payload.Some? then [Delivery(active.value, payload.value)] else []
    {
      var waiting := hearers;
      while waiting != {}
        invariant waiting <= hearers
        invariant queue == old(queue) +
          if active.Some? && active.value in hearers - waiting && payload.Some?
          then [Delivery(active.value, payload.value)] else []
        decreases |waiting|
      {
        var gen :| gen in waiting;
        Notify(gen, payload);
        waiting := waiting - {gen};
      }
    }

    /** A commit, with the listeners that are connected to hear it. */
    method Notified(payload: Option<Event>, hearers: set<nat>)
      requires Valid() && hearers == connected
      modifies this`queue, this`committed
      ensures Valid() && Next(old(Value()), Commit(payload)) == Some(Value())
    {
      committed := committed + if payload.Some? then [payload.value] else [];
      NotifyAll(payload, hearers);
      assert Subs() == old(Subs());
      assert old(queue) + [] == old(queue) && old(committed) + [] == old(committed);
    }

    /** The connection of a generation drops: nothing in the hub notices. */
    ghost method Dropped(gen: nat)
      requires gen in connected
      requires Valid()
      modifies this`connected, this`lost
      ensures Valid() && Next(old(Value()), Drop(gen)) == Some(Value())
    {
      connected := connected - {gen};
      lost := lost[gen := |committed|];
    }

    /** The next delivery of the queue. */
    method RunDelivery(failing: set<nat>)
      requires queue != []
      requires Valid()
      modifies this
      ensures Valid() && Next(old(Value()), Deliver(failing)) == Some(Value())
    {
      var next := queue[0];
      queue := queue[1..];
      if active == Some(next.gen) {
        DeliverEvent(next.event, failing);
      }
    }

    /** A delivery that throws as a whole: the queue's catch closes every subscription. */
    method FailDelivery()
      requires queue != []
      requires Valid()
      modifies this
      ensures Valid() && Next(old(Value()), DeliveryFailed) == Some(Value())
    {
      var next := queue[0];
      queue := queue[1..];
      if active != Some(next.gen) {
        return;
      }
      CloseAllSubscriptions();
    }

    method SubscribeToUpdates(id: nat)
      requires active.Some? && active.value in registered && id !in subscriptions
      requires Valid()
      modifies this`subscriptions, this`openings
      ensures Valid() && Next(old(Value()), Subscribe(id)) == Some(Value())
    {
      openings := openings[id := Opening(active.value, |committed|, PendingOf(queue, active.value))];
      subscriptions := subscriptions[id := []];
      assert Subs() == old(Subs())[id := Sub(active.value, |committed|, PendingOf(queue, active.value), [])];
    }

    /** A client that leaves, a stream that expires, or a heartbeat that fails. */
    method EndSubscription(id: nat)
      requires Valid()
      modifies this`subscriptions
      ensures Valid() && Next(old(Value()), End(id)) == Some(Value())
    {
      if id in subscriptions {
        CloseSubscription(id);
      }
      assert Subs() == old(Subs()) - {id};
    }

    method StopListener()
      requires Valid()
      modifies this
      ensures Valid() && Next(old(Value()), Stop) == Some(Value())
    {
      active := None;
      CloseAllSubscriptions();
    }
  }
}
