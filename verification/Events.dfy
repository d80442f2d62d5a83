/** Publishing to bounded queues, and the outbox that waits for the commit. */
module Events {
  import opened Options

  datatype Event = Event(kind: string, data: string, incident: Option<string>)

  const QUEUE_SIZE: nat := 32

  /** A full queue loses its oldest event to make room for the new one. */
  function Offer<E>(queue: seq<E>, e: E): seq<E> {
    if |queue| >= QUEUE_SIZE then queue[1..] + [e] else queue + [e]
  }

  function OfferAll<E>(queue: seq<E>, events: seq<E>): seq<E> {
    if events == [] then queue else Offer(OfferAll(queue, events[..|events| - 1]), events[|events| - 1])
  }

  function Tail<E>(s: seq<E>, n: nat): seq<E> {
    if |s| <= n then s else s[|s| - n..]
  }

  /** Whatever is offered, a queue keeps the newest events, in order. */
  lemma {:induction false} OfferedIsTail<E>(queue: seq<E>, events: seq<E>)
    requires |queue| <= QUEUE_SIZE
    ensures OfferAll(queue, events) == Tail(queue + events, QUEUE_SIZE)
    decreases |events|
  {
    if events == [] {
      assert queue + events == queue;
    } else {
      var init, e := events[..|events| - 1], events[|events| - 1];
      OfferedIsTail(queue, init);
      assert queue + events == (queue + init) + [e];
    }
  }

  class Subscriber {
    var items: seq<Event>

    constructor ()
      ensures items == []
    {
      items := [];
    }

    method Offered(e: Event)
      requires |items| <= QUEUE_SIZE
      modifies this
      ensures items == Offer(old(items), e) && |items| <= QUEUE_SIZE
    {
      if |items| == QUEUE_SIZE {
        items := items[1..];
      }
      items := items + [e];
    }

    method Take() returns (e: Option<Event>)
      modifies this
      ensures if old(items) == [] then e == None && items == [] else e == Some(old(items)[0]) && items == old(items)[1..]
    {
      if items == [] {
        return None;
      }
      e := Some(items[0]);
      items := items[1..];
    }
  }

  class EventBroker {
    var subscribers: set<Subscriber>

    ghost predicate Valid()
      reads this, subscribers
    {
      forall q :: q in subscribers ==> |q.items| <= QUEUE_SIZE
    }

    constructor ()
      ensures Valid() && subscribers == {}
    {
      subscribers := {};
    }

    method Subscribe() returns (q: Subscriber)
      requires Valid()
      modifies this
      ensures Valid() && fresh(q) && q.items == [] && subscribers == old(subscribers) + {q}
    {
      q := new Subscriber();
      subscribers := subscribers + {q};
    }

    method Unsubscribe(q: Subscriber)
      requires Valid()
      modifies this
      ensures Valid() && subscribers == old(subscribers) - {q}
    {
      subscribers := subscribers - {q};
    }

    method Publish(e: Event)
      requires Valid()
      modifies subscribers
      ensures Valid()
      ensures forall q :: q in subscribers ==> q.items == Offer(old(q.items), e)
    {
      var todo := subscribers;
      while todo != {}
        invariant todo <= subscribers && Valid()
        invariant forall q :: q in todo ==> q.items == old(q.items)
        invariant forall q :: q in subscribers - todo ==> q.items == Offer(old(q.items), e)
      {
        var q :| q in todo;
        q.Offered(e);
        todo := todo - {q};
      }
    }
  }

  /** A registered hook: it may fail on any event, but it is called all the same. */
  class Hook {
    var called: seq<Event>
    const fails: Event -> bool

    constructor (fails: Event -> bool)
      ensures called == [] && this.fails == fails
    {
      called, this.fails := [], fails;
    }

    method Call(e: Event) returns (ok: bool)
      modifies this`called
      ensures called == old(called) + [e] && ok == !fails(e)
    {
      called := called + [e];
      ok := !fails(e);
    }
  }

  /** How many of the hooks fail on the event. */
  function Failures(hooks: seq<Hook>, e: Event): nat {
    if hooks == [] then 0 else Failures(hooks[..|hooks| - 1], e) + if hooks[|hooks| - 1].fails(e) then 1 else 0
  }

  ghost predicate DistinctHooks(hooks: seq<Hook>) {
    forall i, j :: 0 <= i < j < |hooks| ==> hooks[i] != hooks[j]
  }

  class Session {
    var pending: seq<Event>

    constructor ()
      ensures pending == []
    {
      pending := [];
    }

    method PublishAfterCommit(e: Event)
      modifies this
      ensures pending == old(pending) + [e]
    {
      pending := pending + [e];
    }

    /** One event goes to the queues, then to every hook, whether or not the hooks before it failed. */
    static method Announce(broker: EventBroker, hooks: seq<Hook>, e: Event) returns (failures: nat)
      requires broker.Valid() && DistinctHooks(hooks)
      modifies broker.subscribers, hooks
      ensures broker.Valid() && failures == Failures(hooks, e)
      ensures forall q :: q in broker.subscribers ==> q.items == Offer(old(q.items), e)
      ensures forall h :: h in hooks ==> h.called == old(h.called) + [e]
    {
      broker.Publish(e);
      failures := 0;
      for i := 0 to |hooks|
        invariant broker.Valid() && failures == Failures(hooks[..i], e)
        invariant forall q :: q in broker.subscribers ==> q.items == Offer(old(q.items), e)
        invariant forall j :: 0 <= j < i ==> hooks[j].called == old(hooks[j].called) + [e]
        invariant forall j :: i <= j < |hooks| ==> hooks[j].called == old(hooks[j].called)
      {
        assert hooks[..i + 1][..i] == hooks[..i];
        var ok := hooks[i].Call(e);
        if !ok {
          failures := failures + 1;
        }
      }
      assert hooks[..|hooks|] == hooks;
    }

    /** The commit drains the outbox in order, once. */
    method AfterCommit(broker: EventBroker, hooks: seq<Hook>)
      requires broker.Valid() && DistinctHooks(hooks)
      modifies this, broker.subscribers, hooks
      ensures broker.Valid() && pending == []
      ensures forall q :: q in broker.subscribers ==> q.items == OfferAll(old(q.items), old(pending))
      ensures forall h :: h in hooks ==> h.called == old(h.called) + old(pending)
    {
      var events := pending;
      pending := [];
      for i := 0 to |events|
        invariant broker.Valid() && pending == [] && broker.subscribers == old(broker.subscribers)
        invariant forall q :: q in broker.subscribers ==> q.items == OfferAll(old(q.items), events[..i])
        invariant forall h :: h in hooks ==> h.called == old(h.called) + events[..i]
      {
        assert events[..i + 1][..i] == events[..i] && events[..i + 1] == events[..i] + [events[i]];
        var failures := Announce(broker, hooks, events[i]);
      }
      assert events[..|events|] == events;
    }

    method AfterRollback()
      modifies this
      ensures pending == []
    {
      pending := [];
    }
  }

  // ---------- the stream of one subscriber ----------

  /** A stream for one incident passes its own events and those of no incident. */
  predicate Passes(e: Event, incident: Option<string>) {
    incident.Some? && incident.value != "" ==> e.incident == None || e.incident == incident
  }

  function Filtered(events: seq<Event>, incident: Option<string>): seq<Event> {
    if events == [] then []
    else
      var before, e := Filtered(events[..|events| - 1], incident), events[|events| - 1];
      if Passes(e, incident) then before + [e] else before
  }

  /** Nobody misses an event that concerns everyone, a stream for no incident misses
      none, and a stream for one incident is told nothing of the others. */
  lemma PassesExactly(e: Event, incident: Option<string>)
    ensures e.incident.None? ==> Passes(e, incident)
    ensures incident.None? || incident == Some("") ==> Passes(e, incident)
    ensures e.incident.Some? && incident.Some? && incident.value != "" ==> (Passes(e, incident) <==> e.incident.value == incident.value)
  {
  }

  /** What passes keeps its order and its number: each event taken was sent exactly
      when it passes, at the place given by how many passed before it. */
  lemma {:induction false} SentInOrder(events: seq<Event>, incident: Option<string>, k: int)
    requires 0 <= k < |events|
    ensures var before := Filtered(events[..k], incident);
      if Passes(events[k], incident) then before + [events[k]] <= Filtered(events, incident)
      else before <= Filtered(events, incident) && Filtered(events[..k + 1], incident) == before
    decreases |events|
  {
    var n := |events| - 1;
    assert events[..k + 1][..k] == events[..k];
    if k == n {
      assert events[..k + 1] == events;
    } else {
      SentInOrder(events[..n], incident, k);
      assert events[..n][..k] == events[..k] && events[..n][..k + 1] == events[..k + 1];
    }
  }

  /** What is sent for what was taken from the queue. */
  method Stream(taken: seq<Event>, incident: Option<string>) returns (sent: seq<Event>)
    ensures sent == Filtered(taken, incident)
    ensures forall e :: e in sent <==> e in taken && Passes(e, incident)
  {
    sent := [];
    for i := 0 to |taken|
      invariant sent == Filtered(taken[..i], incident)
      invariant forall e :: e in sent <==> e in taken[..i] && Passes(e, incident)
    {
      assert taken[..i + 1][..i] == taken[..i];
      if incident.Some? && incident.value != "" && taken[i].incident != None && taken[i].incident != incident {
        continue;
      }
      sent := sent + [taken[i]];
    }
    assert taken[..|taken|] == taken;
  }
}
