/** Sessions, subscribers and consumers interleaved: what is published, and what each consumer receives. */
module Broadcast {
  import opened Options
  import opened Events

  type Id = nat

  /** What has become of an event handed to `publish_after_commit`. */
  datatype Fate = Waiting | Out(position: nat) | Discarded

  /** The n-th event handed in: by which session, and its fate. */
  datatype Ticket = Ticket(event: Event, session: Id, fate: Fate)

  /** One published event, and the ticket it came from unless published directly. */
  datatype Entry = Entry(event: Event, ticket: Option<nat>)

  /** A subscriber: when it joined, its queue, what it has received and which published
      positions those were, and how much it lost. */
  datatype Sub = Sub(since: nat, queue: seq<Event>, received: seq<Event>, taken: seq<int>, lost: nat)

  datatype System = System(outboxes: map<Id, seq<nat>>, tickets: seq<Ticket>, published: seq<Entry>, subs: map<Id, Sub>)

  datatype Step =
    | Begin(session: Id)
    | Enqueue(session: Id, event: Event)
    | Commit(session: Id)
    | Rollback(session: Id)
    | Direct(event: Event)
    | Join(sub: Id)
    | Leave(sub: Id)
    | Consume(sub: Id)

  // ---------- the steps ----------

  function Receive(u: Sub, e: Event): Sub {
    u.(queue := Offer(u.queue, e), lost := u.lost + if |u.queue| >= QUEUE_SIZE then 1 else 0)
  }

  function Publish(s: System, e: Event, ticket: Option<nat>): System {
    s.(published := s.published + [Entry(e, ticket)], subs := map k | k in s.subs :: Receive(s.subs[k], e))
  }

  /** One ticket leaves its outbox for the subscribers. */
  function Release(s: System, n: nat): System
    requires n < |s.tickets|
  {
    Publish(s.(tickets := s.tickets[n := s.tickets[n].(fate := Out(|s.published|))]), s.tickets[n].event, Some(n))
  }

  function ReleaseAll(s: System, out: seq<nat>): (r: System)
    requires forall i :: 0 <= i < |out| ==> out[i] < |s.tickets|
    ensures |r.tickets| == |s.tickets| && r.outboxes == s.outboxes
    decreases |out|
  {
    if out == [] then s else Release(ReleaseAll(s, out[..|out| - 1]), out[|out| - 1])
  }

  function DiscardAll(tickets: seq<Ticket>, session: Id): (r: seq<Ticket>)
    ensures |r| == |tickets|
    ensures forall n :: 0 <= n < |r| ==>
      r[n] == if tickets[n].session == session && tickets[n].fate == Waiting then tickets[n].(fate := Discarded) else tickets[n]
  {
    seq(|tickets|, n requires 0 <= n < |tickets| =>
      if tickets[n].session == session && tickets[n].fate == Waiting then tickets[n].(fate := Discarded) else tickets[n])
  }

  predicate Enabled(s: System, a: Step) {
    match a
    case Begin(k) => k !in s.outboxes
    case Enqueue(k, _) => k in s.outboxes
    case Commit(k) => k in s.outboxes
    case Rollback(k) => k in s.outboxes
    case Direct(_) => true
    case Join(u) => u !in s.subs
    case Leave(u) => u in s.subs
    case Consume(u) => u in s.subs && s.subs[u].queue != []
  }

  function Next(s: System, a: Step): System
    requires Enabled(s, a) && OutboxesKnown(s)
  {
    match a
    case Begin(k) => s.(outboxes := s.outboxes[k := []])
    case Enqueue(k, e) =>
      s.(outboxes := s.outboxes[k := s.outboxes[k] + [|s.tickets|]], tickets := s.tickets + [Ticket(e, k, Waiting)])
    case Commit(k) => ReleaseAll(s.(outboxes := s.outboxes[k := []]), s.outboxes[k])
    case Rollback(k) => s.(outboxes := s.outboxes[k := []], tickets := DiscardAll(s.tickets, k))
    case Direct(e) => Publish(s, e, None)
    case Join(u) => s.(subs := s.subs[u := Sub(|s.published|, [], [], [], 0)])
    case Leave(u) => s.(subs := map k | k in s.subs && k != u :: s.subs[k])
    case Consume(u) =>
      var b := s.subs[u];
      s.(subs := s.subs[u := b.(queue := b.queue[1..], received := b.received + [b.queue[0]],
                                taken := b.taken + [|s.published| - |b.queue|])])
  }

  predicate OutboxesKnown(s: System) {
    forall k, i :: k in s.outboxes && 0 <= i < |s.outboxes[k]| ==> s.outboxes[k][i] < |s.tickets|
  }

  // ---------- subscribers ----------

  /** A queue is the newest part of what was published since joining, never more
      than its size; what was taken came before it, in order; the rest is counted as lost. */
  ghost predicate SubOk(published: seq<Entry>, u: Sub) {
    && |u.queue| <= QUEUE_SIZE && u.since + |u.queue| <= |published|
    && (forall i :: 0 <= i < |u.queue| ==> u.queue[i] == published[|published| - |u.queue| + i].event)
    && |u.received| == |u.taken|
    && (forall i :: 0 <= i < |u.taken| ==>
          u.since <= u.taken[i] < |published| - |u.queue| && u.received[i] == published[u.taken[i]].event)
    && (forall i, j :: 0 <= i < j < |u.taken| ==> u.taken[i] < u.taken[j])
    && |u.taken| + u.lost + |u.queue| == |published| - u.since
  }

  lemma ReceiveOk(published: seq<Entry>, u: Sub, entry: Entry)
    requires SubOk(published, u)
    ensures SubOk(published + [entry], Receive(u, entry.event))
    ensures var q := Receive(u, entry.event).queue; q != [] && q[|q| - 1] == entry.event
  {
    var after, v := published + [entry], Receive(u, entry.event);
    forall i | 0 <= i < |v.queue|
      ensures v.queue[i] == after[|after| - |v.queue| + i].event
    {
      if i < |v.queue| - 1 {
        var was := if |u.queue| >= QUEUE_SIZE then i + 1 else i;
        assert v.queue[i] == u.queue[was];
      }
    }
  }

  // ---------- tickets ----------

  /** A published entry names its ticket and a released ticket names its entry: at most once each. */
  ghost predicate TicketOk(s: System, n: int)
    requires 0 <= n < |s.tickets|
  {
    var t := s.tickets[n];
    match t.fate
    case Waiting => t.session in s.outboxes && n in s.outboxes[t.session]
    case Out(p) => p < |s.published| && s.published[p] == Entry(t.event, Some(n))
    case Discarded => true
  }

  ghost predicate EntryOk(s: System, p: int)
    requires 0 <= p < |s.published|
  {
    var n := s.published[p].ticket;
    n.Some? ==> n.value < |s.tickets| && s.tickets[n.value].fate == Out(p)
  }

  /** An outbox holds exactly the waiting tickets of its session, oldest first. */
  ghost predicate OutboxOk(s: System, k: Id)
    requires k in s.outboxes
  {
    var b := s.outboxes[k];
    && (forall i :: 0 <= i < |b| ==> b[i] < |s.tickets| && s.tickets[b[i]].session == k && s.tickets[b[i]].fate == Waiting)
    && (forall i, j :: 0 <= i < j < |b| ==> b[i] < b[j])
  }

  /** Of one session, an earlier ticket is never published after, or left waiting by, a later one. */
  ghost predicate InOrder(s: System, m: int, n: int)
    requires 0 <= m < n < |s.tickets|
  {
    s.tickets[m].session == s.tickets[n].session && s.tickets[n].fate.Out? ==>
      s.tickets[m].fate != Waiting && (s.tickets[m].fate.Out? ==> s.tickets[m].fate.position < s.tickets[n].fate.position)
  }

  ghost predicate Inv(s: System) {
    && (forall u :: u in s.subs ==> SubOk(s.published, s.subs[u]))
    && (forall n :: 0 <= n < |s.tickets| ==> TicketOk(s, n))
    && (forall p :: 0 <= p < |s.published| ==> EntryOk(s, p))
    && (forall k :: k in s.outboxes ==> OutboxOk(s, k))
    && (forall m, n :: 0 <= m < n < |s.tickets| ==> InOrder(s, m, n))
  }

  lemma InvKnows(s: System)
    requires Inv(s)
    ensures OutboxesKnown(s)
  {
    forall k, i | k in s.outboxes && 0 <= i < |s.outboxes[k]|
      ensures s.outboxes[k][i] < |s.tickets|
    {
      assert OutboxOk(s, k);
    }
  }

  lemma SubsReceive(s: System, e: Event, ticket: Option<nat>)
    requires forall u :: u in s.subs ==> SubOk(s.published, s.subs[u])
    ensures var t := Publish(s, e, ticket); forall u :: u in t.subs ==> SubOk(t.published, t.subs[u])
  {
    var t := Publish(s, e, ticket);
    forall u | u in t.subs
      ensures SubOk(t.published, t.subs[u])
    {
      ReceiveOk(s.published, s.subs[u], Entry(e, ticket));
    }
  }

  lemma DirectKeeps(s: System, e: Event)
    requires Inv(s)
    ensures Inv(Publish(s, e, None))
  {
    var t := Publish(s, e, None);
    SubsReceive(s, e, None);
    hide SubOk;
    forall n | 0 <= n < |t.tickets|
      ensures TicketOk(t, n)
    {
      assert TicketOk(s, n);
    }
    forall p | 0 <= p < |t.published|
      ensures EntryOk(t, p)
    {
      assert p < |s.published| ==> EntryOk(s, p);
    }
    forall k | k in t.outboxes
      ensures OutboxOk(t, k)
    {
      assert OutboxOk(s, k);
    }
    forall m, n | 0 <= m < n < |t.tickets|
      ensures InOrder(t, m, n)
    {
      assert InOrder(s, m, n);
    }
  }

  // ---------- a commit ----------

  /** In the middle of a commit: the tickets of `out` from `i` on have left the outbox but are not yet published. */
  ghost predicate Midway(s: System, k: Id, out: seq<nat>, i: nat) {
    && i <= |out| && k in s.outboxes && s.outboxes[k] == []
    && (forall j :: 0 <= j < |out| ==> out[j] < |s.tickets| && s.tickets[out[j]].session == k && (s.tickets[out[j]].fate == Waiting <==> i <= j))
    && (forall a, b :: 0 <= a < b < |out| ==> out[a] < out[b])
    && (forall u :: u in s.subs ==> SubOk(s.published, s.subs[u]))
    && (forall n :: 0 <= n < |s.tickets| ==> TicketOk(s, n) || n in out[i..])
    && (forall p :: 0 <= p < |s.published| ==> EntryOk(s, p))
    && (forall x :: x in s.outboxes ==> OutboxOk(s, x))
    && (forall m, n :: 0 <= m < n < |s.tickets| ==> InOrder(s, m, n))
  }

  lemma ReleaseOrder(s: System, k: Id, out: seq<nat>, i: nat, m: int, n: int)
    requires Midway(s, k, out, i) && i < |out| && 0 <= m < n < |s.tickets|
    ensures InOrder(Release(s, out[i]), m, n)
  {
    var t := Release(s, out[i]);
    assert InOrder(s, m, n);
    assert TicketOk(s, m) || m in out[i..];
  }

  lemma ReleaseKeeps(s: System, k: Id, out: seq<nat>, i: nat)
    requires Midway(s, k, out, i) && i < |out|
    ensures Midway(Release(s, out[i]), k, out, i + 1)
  {
    var n0 := out[i];
    var t := Release(s, n0);
    SubsReceive(s.(tickets := t.tickets), s.tickets[n0].event, Some(n0));
    forall m, n | 0 <= m < n < |t.tickets|
      ensures InOrder(t, m, n)
    {
      ReleaseOrder(s, k, out, i, m, n);
    }
    hide SubOk, InOrder;
    forall n | 0 <= n < |t.tickets|
      ensures TicketOk(t, n) || n in out[i + 1..]
    {
      assert TicketOk(s, n) || n in out[i..];
      if n != n0 && n in out[i..] {
        var j :| i <= j < |out| && out[j] == n;
        assert out[i + 1..][j - i - 1] == n;
      }
    }
    forall p | 0 <= p < |t.published|
      ensures EntryOk(t, p)
    {
      assert p < |s.published| ==> EntryOk(s, p);
    }
    forall x | x in t.outboxes
      ensures OutboxOk(t, x)
    {
      assert OutboxOk(s, x);
    }
  }

  lemma {:induction false} ReleaseAllKeeps(s: System, k: Id, out: seq<nat>, i: nat)
    requires Midway(s, k, out, 0) && i <= |out|
    ensures Midway(ReleaseAll(s, out[..i]), k, out, i)
    ensures ReleaseAll(s, out[..i]).outboxes == s.outboxes
    decreases i
  {
    if i > 0 {
      ReleaseAllKeeps(s, k, out, i - 1);
      assert out[..i][..i - 1] == out[..i - 1];
      ReleaseKeeps(ReleaseAll(s, out[..i - 1]), k, out, i - 1);
    } else {
      assert out[..0] == [];
    }
  }

  lemma CommitStarts(s: System, k: Id)
    requires Inv(s) && k in s.outboxes
    ensures Midway(s.(outboxes := s.outboxes[k := []]), k, s.outboxes[k], 0)
  {
    var out, t := s.outboxes[k], s.(outboxes := s.outboxes[k := []]);
    assert OutboxOk(s, k);
    assert out[0..] == out;
    hide SubOk;
    forall n | 0 <= n < |t.tickets|
      ensures TicketOk(t, n) || n in out[0..]
    {
      assert TicketOk(s, n);
    }
    forall p | 0 <= p < |t.published|
      ensures EntryOk(t, p)
    {
      assert EntryOk(s, p);
    }
    forall x | x in t.outboxes
      ensures OutboxOk(t, x)
    {
      assert OutboxOk(s, x);
    }
    forall m, n | 0 <= m < n < |t.tickets|
      ensures InOrder(t, m, n)
    {
      assert InOrder(s, m, n);
    }
  }

  lemma CommitKeeps(s: System, k: Id)
    requires Inv(s) && k in s.outboxes && OutboxesKnown(s)
    ensures Inv(Next(s, Commit(k)))
  {
    var out := s.outboxes[k];
    CommitStarts(s, k);
    ReleaseAllKeeps(s.(outboxes := s.outboxes[k := []]), k, out, |out|);
    assert out[..|out|] == out && out[|out|..] == [];
  }

  // ---------- the other steps ----------

  lemma EnqueueKeeps(s: System, k: Id, e: Event)
    requires Inv(s) && k in s.outboxes && OutboxesKnown(s)
    ensures Inv(Next(s, Enqueue(k, e)))
  {
    var t, added := Next(s, Enqueue(k, e)), |s.tickets|;
    hide SubOk;
    assert added in t.outboxes[k] by {
      assert t.outboxes[k][|s.outboxes[k]|] == added;
    }
    forall n | 0 <= n < |t.tickets|
      ensures TicketOk(t, n)
    {
      if n < added {
        assert TicketOk(s, n);
      }
    }
    forall p | 0 <= p < |t.published|
      ensures EntryOk(t, p)
    {
      assert EntryOk(s, p);
    }
    forall x | x in t.outboxes
      ensures OutboxOk(t, x)
    {
      assert OutboxOk(s, x);
    }
    forall m, n | 0 <= m < n < |t.tickets|
      ensures InOrder(t, m, n)
    {
      assert n < added ==> InOrder(s, m, n);
    }
  }

  lemma RollbackKeeps(s: System, k: Id)
    requires Inv(s) && k in s.outboxes && OutboxesKnown(s)
    ensures Inv(Next(s, Rollback(k)))
  {
    var t := Next(s, Rollback(k));
    hide SubOk;
    forall n | 0 <= n < |t.tickets|
      ensures TicketOk(t, n)
    {
      assert TicketOk(s, n);
    }
    forall p | 0 <= p < |t.published|
      ensures EntryOk(t, p)
    {
      assert EntryOk(s, p);
    }
    forall x | x in t.outboxes
      ensures OutboxOk(t, x)
    {
      assert OutboxOk(s, x);
    }
    forall m, n | 0 <= m < n < |t.tickets|
      ensures InOrder(t, m, n)
    {
      assert InOrder(s, m, n);
    }
  }

  lemma ConsumeKeeps(s: System, u: Id)
    requires Inv(s) && Enabled(s, Consume(u)) && OutboxesKnown(s)
    ensures Inv(Next(s, Consume(u)))
  {
    hide TicketOk, EntryOk, OutboxOk, InOrder, SubOk;
    var t := Next(s, Consume(u));
    TakeKeeps(s.published, s.subs[u], t.subs[u]);
    SameRest(s, t);
  }

  /** Taking the oldest event of a queue. */
  lemma TakeKeeps(published: seq<Entry>, b: Sub, c: Sub)
    requires SubOk(published, b) && b.queue != []
    requires c == Sub(b.since, b.queue[1..], b.received + [b.queue[0]], b.taken + [|published| - |b.queue|], b.lost)
    ensures SubOk(published, c)
  {
  }

  /** Outboxes, tickets and published events do not depend on subscribers. */
  lemma SameRest(s: System, t: System)
    requires Inv(s) && t.published == s.published && t.tickets == s.tickets
    requires t.outboxes == s.outboxes || exists k: Id :: k !in s.outboxes && t.outboxes == s.outboxes[k := []]
    requires forall v :: v in t.subs ==> SubOk(t.published, t.subs[v])
    ensures Inv(t)
  {
    hide SubOk;
    forall n | 0 <= n < |t.tickets|
      ensures TicketOk(t, n)
    {
      assert TicketOk(s, n);
    }
    forall p | 0 <= p < |t.published|
      ensures EntryOk(t, p)
    {
      assert EntryOk(s, p);
    }
    forall x | x in t.outboxes
      ensures OutboxOk(t, x)
    {
      assert x in s.outboxes ==> OutboxOk(s, x);
    }
    forall m, n | 0 <= m < n < |t.tickets|
      ensures InOrder(t, m, n)
    {
      assert InOrder(s, m, n);
    }
  }

  lemma NextKeeps(s: System, a: Step)
    requires Inv(s) && Enabled(s, a)
    ensures OutboxesKnown(s) && Inv(Next(s, a))
  {
    InvKnows(s);
    match a
    case Begin(k) => SameRest(s, Next(s, a));
    case Enqueue(k, e) => EnqueueKeeps(s, k, e);
    case Commit(k) => CommitKeeps(s, k);
    case Rollback(k) => RollbackKeeps(s, k);
    case Direct(e) => DirectKeeps(s, e);
    case Join(u) => SameRest(s, Next(s, a));
    case Leave(u) => SameRest(s, Next(s, a));
    case Consume(u) => ConsumeKeeps(s, u);
  }

  // ---------- runs ----------

  ghost predicate IsRun(states: seq<System>, steps: seq<Step>) {
    && |states| == |steps| + 1 && states[0] == System(map[], [], [], map[])
    && forall i :: 0 <= i < |steps| ==> IsStep(states[i], steps[i], states[i + 1])
  }

  ghost predicate IsStep(s: System, a: Step, t: System) {
    Enabled(s, a) && OutboxesKnown(s) && t == Next(s, a)
  }

  /** Every state of every interleaving is in order. */
  lemma {:induction false} RunKeeps(states: seq<System>, steps: seq<Step>, i: nat)
    requires IsRun(states, steps) && i < |states|
    ensures Inv(states[i])
    decreases i
  {
    if i > 0 {
      RunKeeps(states, steps, i - 1);
      assert IsStep(states[i - 1], steps[i - 1], states[i]);
      NextKeeps(states[i - 1], steps[i - 1]);
    }
  }

  /** No event handed in is published twice, and one published came from a commit, not a rollback. */
  lemma PublishedOnce(states: seq<System>, steps: seq<Step>, i: nat, p: nat, r: nat)
    requires IsRun(states, steps) && i < |states|
    requires p < |states[i].published| && r < |states[i].published| && states[i].published[p].ticket.Some?
    requires states[i].published[p].ticket == states[i].published[r].ticket
    ensures p == r && states[i].published[p].ticket.value < |states[i].tickets|
    ensures states[i].tickets[states[i].published[p].ticket.value].fate == Out(p)
  {
    RunKeeps(states, steps, i);
    assert EntryOk(states[i], p) && EntryOk(states[i], r);
  }

  ghost predicate Settled(before: System, after: System) {
    && |before.tickets| <= |after.tickets| && before.published <= after.published
    && forall n :: 0 <= n < |before.tickets| ==>
         && after.tickets[n].event == before.tickets[n].event && after.tickets[n].session == before.tickets[n].session
         && (before.tickets[n].fate != Waiting ==> after.tickets[n] == before.tickets[n])
  }

  lemma {:induction false} ReleaseAllSettles(s: System, out: seq<nat>)
    requires forall i :: 0 <= i < |out| ==> out[i] < |s.tickets| && s.tickets[out[i]].fate == Waiting
    requires forall i, j :: 0 <= i < j < |out| ==> out[i] != out[j]
    ensures Settled(s, ReleaseAll(s, out))
    ensures forall n :: 0 <= n < |s.tickets| && n !in out ==> ReleaseAll(s, out).tickets[n] == s.tickets[n]
    decreases |out|
  {
    if out != [] {
      ReleaseAllSettles(s, out[..|out| - 1]);
    }
  }

  lemma NextSettles(s: System, a: Step)
    requires Inv(s) && Enabled(s, a) && OutboxesKnown(s)
    ensures Settled(s, Next(s, a))
  {
    if a.Commit? {
      assert OutboxOk(s, a.session);
      ReleaseAllSettles(s.(outboxes := s.outboxes[a.session := []]), s.outboxes[a.session]);
    }
  }

  /** A fate once decided stands: what was rolled back is never published later,
      what was published is never withdrawn. */
  lemma {:induction false} FatesStand(states: seq<System>, steps: seq<Step>, i: nat, j: nat)
    requires IsRun(states, steps) && i <= j < |states|
    ensures Settled(states[i], states[j])
    decreases j
  {
    if i < j {
      FatesStand(states, steps, i, j - 1);
      RunKeeps(states, steps, j - 1);
      assert IsStep(states[j - 1], steps[j - 1], states[j]);
      NextSettles(states[j - 1], steps[j - 1]);
    }
  }

  /** A consumer whose queue never overflowed has received everything since it joined, in order. */
  lemma NothingLost(states: seq<System>, steps: seq<Step>, i: nat, u: Id)
    requires IsRun(states, steps) && i < |states| && u in states[i].subs && states[i].subs[u].lost == 0
    ensures var b, published := states[i].subs[u], states[i].published;
      && b.since + |b.received| <= |published|
      && forall k :: 0 <= k < |b.received| ==> b.received[k] == published[b.since + k].event
  {
    RunKeeps(states, steps, i);
    var b := states[i].subs[u];
    assert SubOk(states[i].published, b);
    Consecutive(b.taken, b.since, |states[i].published| - |b.queue|);
  }

  lemma {:induction false} Consecutive(s: seq<int>, lo: nat, hi: int)
    requires forall i :: 0 <= i < |s| ==> lo <= s[i] < hi
    requires forall i, j :: 0 <= i < j < |s| ==> s[i] < s[j]
    requires |s| >= hi - lo
    ensures forall k :: 0 <= k < |s| ==> s[k] == lo + k
    decreases |s|
  {
    if s != [] {
      var last := s[|s| - 1];
      AtLeast(s, lo, |s| - 1);
      var init := s[..|s| - 1];
      forall i | 0 <= i < |init|
        ensures lo <= init[i] < hi - 1
      {
        assert s[i] < last;
      }
      Consecutive(init, lo, hi - 1);
    }
  }

  lemma {:induction false} AtLeast(s: seq<int>, lo: nat, k: nat)
    requires forall i, j :: 0 <= i < j < |s| ==> s[i] < s[j]
    requires k < |s| && s[0] >= lo
    ensures s[k] >= lo + k
    decreases k
  {
    if k > 0 {
      AtLeast(s, lo, k - 1);
    }
  }

  // ---------- what one step publishes ----------

  function EventsOf(s: System, out: seq<nat>): seq<Event>
    requires forall i :: 0 <= i < |out| ==> out[i] < |s.tickets|
  {
    seq(|out|, i requires 0 <= i < |out| => s.tickets[out[i]].event)
  }

  /** What a step hands to the subscribers: a commit its session's outbox in order, no other session's. */
  function Handed(s: System, a: Step): seq<Event>
    requires Enabled(s, a) && OutboxesKnown(s)
  {
    match a
    case Commit(k) => EventsOf(s, s.outboxes[k])
    case Direct(e) => [e]
    case _ => []
  }

  lemma {:induction false} ReleaseAllOffers(s: System, out: seq<nat>, u: Id)
    requires forall i :: 0 <= i < |out| ==> out[i] < |s.tickets|
    ensures var t := ReleaseAll(s, out);
      && (forall n :: 0 <= n < |s.tickets| ==> t.tickets[n].event == s.tickets[n].event)
      && |t.published| == |s.published| + |out| && s.published <= t.published
      && (forall i :: 0 <= i < |out| ==> t.published[|s.published| + i] == Entry(s.tickets[out[i]].event, Some(out[i])))
      && (u in t.subs <==> u in s.subs)
      && (u in s.subs ==> t.subs[u].queue == OfferAll(s.subs[u].queue, EventsOf(s, out)))
    decreases |out|
  {
    if out != [] {
      var init := out[..|out| - 1];
      ReleaseAllOffers(s, init, u);
      var all := EventsOf(s, out);
      assert all[..|all| - 1] == EventsOf(s, init);
    }
  }

  /** A step publishes exactly what it hands over, and each queue keeps the newest of what it then held. */
  lemma StepPublishes(s: System, a: Step, u: Id)
    requires Inv(s) && Enabled(s, a) && OutboxesKnown(s) && u in s.subs && a != Leave(u) && a != Consume(u)
    ensures var t, handed := Next(s, a), Handed(s, a);
      && |t.published| == |s.published| + |handed|
      && (forall i :: 0 <= i < |handed| ==> t.published[|s.published| + i].event == handed[i])
      && u in t.subs && t.subs[u].queue == Tail(s.subs[u].queue + handed, QUEUE_SIZE)
  {
    hide TicketOk, EntryOk, OutboxOk, InOrder, ReleaseAll, OfferAll;
    var t, handed := Next(s, a), Handed(s, a);
    assert |s.subs[u].queue| <= QUEUE_SIZE by {
      assert SubOk(s.published, s.subs[u]);
    }
    OfferedIsTail(s.subs[u].queue, handed);
    hide SubOk, Tail;
    if a.Commit? {
      CommitOffers(s, a.session, u);
    } else {
      OfferedOne(s.subs[u].queue, handed);
    }
  }

  lemma CommitOffers(s: System, k: Id, u: Id)
    requires k in s.outboxes && OutboxesKnown(s) && u in s.subs
    ensures var t, handed := Next(s, Commit(k)), Handed(s, Commit(k));
      && |t.published| == |s.published| + |handed|
      && (forall i :: 0 <= i < |handed| ==> t.published[|s.published| + i].event == handed[i])
      && u in t.subs && t.subs[u].queue == OfferAll(s.subs[u].queue, handed)
  {
    hide ReleaseAll, OfferAll;
    var cleared := s.(outboxes := s.outboxes[k := []]);
    ReleaseAllOffers(cleared, s.outboxes[k], u);
    assert EventsOf(cleared, s.outboxes[k]) == EventsOf(s, s.outboxes[k]);
  }

  lemma OfferedOne(queue: seq<Event>, handed: seq<Event>)
    requires |handed| <= 1
    ensures OfferAll(queue, handed) == if handed == [] then queue else Offer(queue, handed[0])
  {
    if handed != [] {
      assert handed[..0] == [];
    }
  }

  // ---------- what becomes of an event handed in ----------

  predicate Ends(a: Step, k: Id) {
    a == Commit(k) || a == Rollback(k)
  }

  /** A ticket waits as long as its session neither commits nor rolls back. */
  lemma WaitsOn(s: System, a: Step, n: int)
    requires Inv(s) && Enabled(s, a) && OutboxesKnown(s) && 0 <= n < |s.tickets|
    requires s.tickets[n].fate == Waiting && !Ends(a, s.tickets[n].session)
    ensures n < |Next(s, a).tickets| && Next(s, a).tickets[n] == s.tickets[n]
  {
    if a.Commit? {
      assert OutboxOk(s, a.session);
      ReleaseAllSettles(s.(outboxes := s.outboxes[a.session := []]), s.outboxes[a.session]);
    }
  }

  lemma {:induction false} ReleaseAllReleases(s: System, out: seq<nat>, i: int)
    requires forall j :: 0 <= j < |out| ==> out[j] < |s.tickets|
    requires (forall j, k :: 0 <= j < k < |out| ==> out[j] != out[k]) && 0 <= i < |out|
    ensures ReleaseAll(s, out).tickets[out[i]].fate.Out?
    decreases |out|
  {
    if i < |out| - 1 {
      ReleaseAllReleases(s, out[..|out| - 1], i);
    }
  }

  /** A commit sends out what waits in its session, a rollback discards it; either way the outbox is empty. */
  lemma EndDecides(s: System, a: Step, k: Id, n: int)
    requires Inv(s) && Enabled(s, a) && OutboxesKnown(s) && Ends(a, k)
    requires 0 <= n < |s.tickets| && s.tickets[n].session == k && s.tickets[n].fate == Waiting
    ensures var t := Next(s, a);
      && n < |t.tickets| && k in t.outboxes && t.outboxes[k] == []
      && (a.Commit? ==> t.tickets[n].fate.Out?) && (a.Rollback? ==> t.tickets[n].fate == Discarded)
  {
    assert TicketOk(s, n) && OutboxOk(s, k);
    if a.Commit? {
      var out := s.outboxes[k];
      var i :| 0 <= i < |out| && out[i] == n;
      ReleaseAllReleases(s.(outboxes := s.outboxes[k := []]), out, i);
    }
  }

  ghost predicate OpenBetween(steps: seq<Step>, i: nat, j: nat, k: Id) {
    j <= |steps| && forall m :: i < m < j ==> !Ends(steps[m], k)
  }

  /** Handed in and its session still open: the event waits. */
  lemma {:induction false} WaitsWhileOpen(states: seq<System>, steps: seq<Step>, i: nat, j: nat, k: Id, e: Event)
    requires IsRun(states, steps) && i < j <= |steps| && steps[i] == Enqueue(k, e) && OpenBetween(steps, i, j, k)
    ensures var n := |states[i].tickets|; n < |states[j].tickets| && states[j].tickets[n] == Ticket(e, k, Waiting)
    decreases j
  {
    assert IsStep(states[j - 1], steps[j - 1], states[j]);
    RunKeeps(states, steps, j - 1);
    if i + 1 < j {
      WaitsWhileOpen(states, steps, i, j - 1, k, e);
      hide Inv, Next, Enabled, OutboxesKnown, IsRun;
      WaitsOn(states[j - 1], steps[j - 1], |states[i].tickets|);
    }
  }

  /** Whatever is handed in is published for good by its session's next commit, if
      that comes before a rollback, and is otherwise never published. */
  lemma EventFate(states: seq<System>, steps: seq<Step>, i: nat, m: nat, j: nat, k: Id, e: Event)
    requires IsRun(states, steps) && i < m < j <= |steps| && steps[i] == Enqueue(k, e)
    requires OpenBetween(steps, i, m, k) && Ends(steps[m], k)
    ensures var s, n := states[j], |states[i].tickets|;
      && n < |s.tickets| && s.tickets[n].event == e
      && (steps[m].Commit? ==> s.tickets[n].fate.Out? && s.tickets[n].fate.position < |s.published|
                               && s.published[s.tickets[n].fate.position] == Entry(e, Some(n)))
      && (steps[m].Rollback? ==> forall p :: 0 <= p < |s.published| ==> s.published[p].ticket != Some(n))
  {
    var n := |states[i].tickets|;
    WaitsWhileOpen(states, steps, i, m, k, e);
    assert IsStep(states[m], steps[m], states[m + 1]);
    RunKeeps(states, steps, m);
    EndDecides(states[m], steps[m], k, n);
    FatesStand(states, steps, m, j);
    FatesStand(states, steps, m + 1, j);
    RunKeeps(states, steps, j);
    hide Next, Enabled, OutboxesKnown, IsRun, SubOk, OutboxOk, InOrder;
    assert TicketOk(states[j], n);
    forall p | 0 <= p < |states[j].published|
      ensures steps[m].Rollback? ==> states[j].published[p].ticket != Some(n)
    {
      assert EntryOk(states[j], p);
    }
  }

  // ---------- what becomes of a subscriber ----------

  /** A consumer moves the oldest event of its queue to what it has received, and
      touches nobody else's. */
  lemma ConsumeMoves(s: System, u: Id, v: Id)
    requires Enabled(s, Consume(u)) && OutboxesKnown(s) && v in s.subs
    ensures var b, c := s.subs[v], Next(s, Consume(u)).subs[v];
      && c.received + c.queue == b.received + b.queue && c.lost == b.lost && c.since == b.since
      && |c.received| == |b.received| + if v == u then 1 else 0
  {
    var b := s.subs[v];
    assert v == u ==> b.queue == [b.queue[0]] + b.queue[1..];
  }

  /** A subscriber hears from the moment it joined on, as long as it does not leave. */
  lemma {:induction false} HearsSince(states: seq<System>, steps: seq<Step>, i: nat, j: nat, u: Id)
    requires IsRun(states, steps) && i < j <= |steps| && steps[i] == Join(u)
    requires forall m :: i < m < j ==> steps[m] != Leave(u)
    ensures u in states[j].subs && states[j].subs[u].since == |states[i].published|
    decreases j
  {
    assert IsStep(states[j - 1], steps[j - 1], states[j]);
    if i + 1 < j {
      HearsSince(states, steps, i, j - 1, u);
      StaysSubscribed(states[j - 1], steps[j - 1], u);
    }
  }

  lemma StaysSubscribed(s: System, a: Step, u: Id)
    requires Enabled(s, a) && OutboxesKnown(s) && u in s.subs && a != Leave(u)
    ensures u in Next(s, a).subs && Next(s, a).subs[u].since == s.subs[u].since
  {
    if a.Commit? {
      ReleaseKeepsSince(s.(outboxes := s.outboxes[a.session := []]), s.outboxes[a.session], u);
    }
  }

  lemma {:induction false} ReleaseKeepsSince(s: System, out: seq<nat>, u: Id)
    requires (forall i :: 0 <= i < |out| ==> out[i] < |s.tickets|) && u in s.subs
    ensures u in ReleaseAll(s, out).subs && ReleaseAll(s, out).subs[u].since == s.subs[u].since
    ensures ReleaseAll(s, out).subs.Keys == s.subs.Keys
    decreases |out|
  {
    if out != [] {
      ReleaseKeepsSince(s, out[..|out| - 1], u);
    }
  }

  /** Who leaves is gone, and nobody else. */
  lemma LeavingIsFinal(s: System, u: Id)
    requires Enabled(s, Leave(u)) && OutboxesKnown(s)
    ensures Next(s, Leave(u)).subs.Keys == s.subs.Keys - {u}
    ensures forall v :: v in s.subs && v != u ==> Next(s, Leave(u)).subs[v] == s.subs[v]
  {
  }
}
