/** Tasks asking the cache for values at the same time: every interleaving of their steps. */
module SingleFlight {
  import opened Options
  import opened Cache

  type Id = nat

  /** How far one call of `get_or_set` has come. */
  datatype Task =
    | AtGuard(key: Key, ttl: real)
    | Waiting(key: Key, ttl: real, lock: nat)
    | Holding(key: Key, ttl: real, lock: nat)
    | Running(key: Key, ttl: real, lock: nat)
    | Returned(key: Key, value: Option<Value>)
    | Failed(key: Key)
  {
    predicate HasLock() {
      Holding? || Running?
    }
  }

  /** What a factory produced, for which key, and until when it may be used. */
  datatype Product = Product(key: Key, value: Option<Value>, expires: real)

  /** `locks` names a lock for each key asked for; `holders` says who has each lock. */
  datatype System = System(
    max: nat, store: Store, now: real, locks: map<Key, nat>, holders: seq<Option<Id>>, tasks: map<Id, Task>, made: seq<Product>)

  datatype Step =
    | Call(task: Id, key: Key, ttl: real)
    | Fetch(task: Id)
    | Acquire(task: Id)
    | Recheck(task: Id)
    | Produce(task: Id, value: Option<Value>, victim: Option<Key>, later: real)
    | Raise(task: Id)
    | Cancel(task: Id)
    | Invalidate(key: Key)
    | Clear
    | Tick(later: real)

  // ---------- the steps ----------

  ghost predicate Enabled(s: System, a: Step) {
    match a
    case Call(t, _, _) => t !in s.tasks
    case Fetch(t) => t in s.tasks && s.tasks[t].AtGuard?
    case Acquire(t) =>
      t in s.tasks && s.tasks[t].Waiting? && s.tasks[t].lock < |s.holders| && s.holders[s.tasks[t].lock] == None
    case Recheck(t) => t in s.tasks && s.tasks[t].Holding? && s.tasks[t].lock < |s.holders|
    case Produce(t, _, victim, later) =>
      && t in s.tasks && s.tasks[t].Running? && s.tasks[t].lock < |s.holders|
      && s.now <= later && MayEvict(s.store, s.now, s.max, victim)
    case Raise(t) => t in s.tasks && s.tasks[t].Running? && s.tasks[t].lock < |s.holders|
    case Cancel(t) => t in s.tasks && (s.tasks[t].AtGuard? || s.tasks[t].Waiting?)
    case Invalidate(_) => true
    case Clear => true
    case Tick(later) => s.now <= later
  }

  function Leave(s: System, t: Id, outcome: Task): System
    requires t in s.tasks && s.tasks[t].HasLock() && s.tasks[t].lock < |s.holders|
  {
    s.(tasks := s.tasks[t := outcome], holders := s.holders[s.tasks[t].lock := None])
  }

  ghost function Next(s: System, a: Step): System
    requires Enabled(s, a)
  {
    match a
    case Call(t, k, ttl) =>
      var hit := Found(s.store, k, s.now);
      s.(store := Purged(s.store, k, s.now), tasks := s.tasks[t := if hit.Some? then Returned(k, hit) else AtGuard(k, ttl)])
    case Fetch(t) =>
      var u := s.tasks[t];
      if u.key in s.locks then s.(tasks := s.tasks[t := Waiting(u.key, u.ttl, s.locks[u.key])])
      else s.(locks := s.locks[u.key := |s.holders|], holders := s.holders + [None],
              tasks := s.tasks[t := Waiting(u.key, u.ttl, |s.holders|)])
    case Acquire(t) =>
      var u := s.tasks[t];
      s.(holders := s.holders[u.lock := Some(t)], tasks := s.tasks[t := Holding(u.key, u.ttl, u.lock)])
    case Recheck(t) =>
      var u := s.tasks[t];
      var hit, left := Found(s.store, u.key, s.now), s.(store := Purged(s.store, u.key, s.now));
      if hit.Some? then Leave(left, t, Returned(u.key, hit))
      else left.(tasks := s.tasks[t := Running(u.key, u.ttl, u.lock)])
    case Produce(t, v, victim, later) =>
      var u := s.tasks[t];
      var entry := Entry(v, later + u.ttl);
      Leave(s.(store := Stored(s.store, u.key, entry, s.now, s.max, victim), now := later,
               made := s.made + [Product(u.key, v, later + u.ttl)]),
            t, Returned(u.key, v))
    case Raise(t) => Leave(s, t, Failed(s.tasks[t].key))
    case Cancel(t) => s.(tasks := s.tasks[t := Failed(s.tasks[t].key)])
    case Invalidate(k) => s.(store := s.store - {k})
    case Clear => s.(store := map[])
    case Tick(later) => s.(now := later)
  }

  // ---------- what every reachable state keeps ----------

  ghost predicate Made(made: seq<Product>, key: Key, value: Option<Value>) {
    exists i :: 0 <= i < |made| && made[i].key == key && made[i].value == value
  }

  ghost predicate Tracked(made: seq<Product>, key: Key, entry: Entry) {
    Product(key, entry.value, entry.expires) in made
  }

  /** A task that got its key's lock is the one holding it; a value returned came from a factory for that key. */
  ghost predicate TaskOk(s: System, t: Id)
    requires t in s.tasks
  {
    var u := s.tasks[t];
    match u
    case AtGuard(_, _) => true
    case Waiting(k, _, l) => k in s.locks && s.locks[k] == l
    case Holding(k, _, l) => k in s.locks && s.locks[k] == l && l < |s.holders| && s.holders[l] == Some(t)
    case Running(k, _, l) => k in s.locks && s.locks[k] == l && l < |s.holders| && s.holders[l] == Some(t)
    case Returned(k, v) => Made(s.made, k, v)
    case Failed(_) => true
  }

  /** Whoever holds a lock is at work under it. */
  ghost predicate HolderOk(s: System, l: int)
    requires 0 <= l < |s.holders|
  {
    s.holders[l].Some? ==>
      var t := s.holders[l].value;
      t in s.tasks && s.tasks[t].HasLock() && s.tasks[t].lock == l
  }

  ghost predicate LocksOk(s: System) {
    && (forall k :: k in s.locks ==> s.locks[k] < |s.holders|)
    && (forall k, m :: k in s.locks && m in s.locks && s.locks[k] == s.locks[m] ==> k == m)
  }

  ghost predicate StoreOk(s: System) {
    && |s.store| <= s.max
    && forall k :: k in s.store ==> Tracked(s.made, k, s.store[k])
  }

  ghost predicate Inv(s: System) {
    && s.max >= 1 && StoreOk(s) && LocksOk(s)
    && (forall t :: t in s.tasks ==> TaskOk(s, t))
    && (forall l :: 0 <= l < |s.holders| ==> HolderOk(s, l))
  }

  lemma PurgedWithin(store: Store, key: Key, now: real)
    ensures |Purged(store, key, now)| <= |store| && |store - {key}| <= |store|
  {
    assert (store - {key}).Keys == store.Keys - {key};
  }

  lemma StoreKeepsProduct(s: System, a: Step)
    requires s.max >= 1 && StoreOk(s) && Enabled(s, a) && a.Produce?
    ensures StoreOk(Next(s, a))
  {
    var n, k := Next(s, a), s.tasks[a.task].key;
    var entry := Entry(a.value, a.later + s.tasks[a.task].ttl);
    StoredWithin(s.store, k, entry, s.now, s.max, a.victim);
    assert n.store == Stored(s.store, k, entry, s.now, s.max, a.victim) && n.made == s.made + [Product(k, a.value, entry.expires)];
    hide MayEvict, Enabled, Next;
    forall x | x in n.store
      ensures Tracked(n.made, x, n.store[x])
    {
      assert x != k ==> Tracked(s.made, x, s.store[x]);
    }
  }

  lemma StoreKeeps(s: System, a: Step)
    requires s.max >= 1 && StoreOk(s) && Enabled(s, a)
    ensures StoreOk(Next(s, a))
  {
    hide Stored, MayEvict, Tracked, Found;
    match a
    case Call(_, k, _) => PurgedWithin(s.store, k, s.now);
    case Recheck(u) => PurgedWithin(s.store, s.tasks[u].key, s.now);
    case Invalidate(k) => PurgedWithin(s.store, k, s.now);
    case Produce(_, _, _, _) => StoreKeepsProduct(s, a);
    case _ =>
  }

  lemma FoundIsMade(s: System, key: Key)
    requires StoreOk(s) && Found(s.store, key, s.now).Some?
    ensures Made(s.made, key, Found(s.store, key, s.now))
  {
    assert Tracked(s.made, key, s.store[key]);
  }

  lemma MadeGrows(made: seq<Product>, p: Product, key: Key, value: Option<Value>)
    ensures Made(made, key, value) ==> Made(made + [p], key, value)
    ensures Made(made + [p], p.key, p.value)
  {
    var all := made + [p];
    assert all[|made|] == p;
    if Made(made, key, value) {
      var i :| 0 <= i < |made| && made[i].key == key && made[i].value == value;
      assert all[i] == made[i];
    }
  }

  lemma TasksKeep(s: System, a: Step, t: Id)
    requires Inv(s) && Enabled(s, a) && t in Next(s, a).tasks
    ensures TaskOk(Next(s, a), t)
  {
    hide Purged, Stored, Found, Tracked, MayEvict, Made;
    if t in s.tasks {
      assert TaskOk(s, t);
    }
    match a
    case Call(u, k, _) =>
      if t == u && Found(s.store, k, s.now).Some? {
        FoundIsMade(s, k);
      }
    case Recheck(u) =>
      assert TaskOk(s, u);
      if t == u && Found(s.store, s.tasks[u].key, s.now).Some? {
        FoundIsMade(s, s.tasks[u].key);
      }
    case Produce(u, v, _, later) =>
      assert TaskOk(s, u);
      var p := Product(s.tasks[u].key, v, later + s.tasks[u].ttl);
      if s.tasks[t].Returned? {
        MadeGrows(s.made, p, s.tasks[t].key, s.tasks[t].value);
      } else {
        MadeGrows(s.made, p, p.key, p.value);
      }
    case Raise(u) => assert TaskOk(s, u);
    case Acquire(u) => assert TaskOk(s, u);
    case _ =>
  }

  lemma HoldersKeep(s: System, a: Step, l: nat)
    requires Inv(s) && Enabled(s, a) && l < |Next(s, a).holders|
    ensures HolderOk(Next(s, a), l)
  {
    hide Purged, Stored, Found, Tracked, MayEvict, Made;
    if l < |s.holders| {
      assert HolderOk(s, l);
    }
  }

  lemma LocksKeep(s: System, a: Step)
    requires LocksOk(s) && Enabled(s, a)
    ensures LocksOk(Next(s, a)) && Next(s, a).max == s.max
  {
    hide Purged, Stored, Found, MayEvict;
  }

  lemma NextKeeps(s: System, a: Step)
    requires Inv(s) && Enabled(s, a)
    ensures Inv(Next(s, a)) && Next(s, a).max == s.max
  {
    hide Next, Enabled, StoreOk, LocksOk, TaskOk, HolderOk;
    var n := Next(s, a);
    StoreKeeps(s, a);
    LocksKeep(s, a);
    forall t | t in n.tasks
      ensures TaskOk(n, t)
    {
      TasksKeep(s, a, t);
    }
    forall l | 0 <= l < |n.holders|
      ensures HolderOk(n, l)
    {
      HoldersKeep(s, a, l);
    }
  }

  // ---------- runs ----------

  function Start(max: nat, now: real): System {
    System(max, map[], now, map[], [], map[], [])
  }

  ghost predicate IsStep(s: System, a: Step, t: System) {
    Enabled(s, a) && t == Next(s, a)
  }

  ghost predicate IsRun(states: seq<System>, steps: seq<Step>) {
    && |states| == |steps| + 1 && states[0].max >= 1 && states[0] == Start(states[0].max, states[0].now)
    && forall i :: 0 <= i < |steps| ==> IsStep(states[i], steps[i], states[i + 1])
  }

  lemma {:induction false} RunKeeps(states: seq<System>, steps: seq<Step>, i: nat)
    requires IsRun(states, steps) && i < |states|
    ensures Inv(states[i]) && states[i].max == states[0].max
    decreases i
  {
    if i > 0 {
      RunKeeps(states, steps, i - 1);
      assert IsStep(states[i - 1], steps[i - 1], states[i]);
      NextKeeps(states[i - 1], steps[i - 1]);
    }
  }

  /** However the tasks interleave, at most one factory runs for a key, and the store stays within its limit. */
  lemma OneFactoryPerKey(states: seq<System>, steps: seq<Step>, i: nat, t: Id, u: Id)
    requires IsRun(states, steps) && i < |states|
    requires t in states[i].tasks && u in states[i].tasks && states[i].tasks[t].Running? && states[i].tasks[u].Running?
    requires states[i].tasks[t].key == states[i].tasks[u].key
    ensures t == u
  {
    RunKeeps(states, steps, i);
    assert TaskOk(states[i], t) && TaskOk(states[i], u);
  }

  lemma StoreIsBounded(states: seq<System>, steps: seq<Step>, i: nat)
    requires IsRun(states, steps) && i < |states|
    ensures |states[i].store| <= states[0].max
  {
    RunKeeps(states, steps, i);
  }

  /** No task waits for ever on an abandoned lock: what it waits for is free, or
      held by a task that is at work on the same key. */
  lemma WaitersAreServed(states: seq<System>, steps: seq<Step>, i: nat, t: Id)
    requires IsRun(states, steps) && i < |states| && t in states[i].tasks && states[i].tasks[t].Waiting?
    ensures var s, u := states[i], states[i].tasks[t];
      || Enabled(s, Acquire(t))
      || exists w :: w in s.tasks && s.tasks[w].key == u.key && (Enabled(s, Recheck(w)) || Enabled(s, Raise(w)))
  {
    RunKeeps(states, steps, i);
    var s, u := states[i], states[i].tasks[t];
    assert TaskOk(s, t) && HolderOk(s, u.lock);
    if s.holders[u.lock].Some? {
      var w := s.holders[u.lock].value;
      assert TaskOk(s, w);
    }
  }

  // ---------- what one step may do ----------

  /** An unexpired entry goes only when it is invalidated, replaced by its own key's
      factory, or pushed out of a store full of unexpired entries as the first to expire. */
  lemma WhatDisplaces(s: System, a: Step, k: Key)
    requires Inv(s) && Enabled(s, a) && k in s.store && !Expired(s.store, k, s.now)
    requires k !in Next(s, a).store || Next(s, a).store[k] != s.store[k]
    ensures || a == Invalidate(k) || a == Clear
            || (a.Produce? && s.tasks[a.task].key == k)
            || (a.Produce? && |s.store| == s.max && a.victim == Some(k)
                && forall x :: x in s.store ==> s.store[k].expires <= s.store[x].expires && !Expired(s.store, x, s.now))
  {
    if a.Produce? && s.tasks[a.task].key != k {
      var entry := Entry(a.value, a.later + s.tasks[a.task].ttl);
      StoredDropsOldest(s.store, s.tasks[a.task].key, entry, s.now, s.max, a.victim, k);
      assert forall x :: x in s.store ==> x in Live(s.store, s.now);
    }
  }

  ghost predicate Starts(s: System, a: Step, k: Key) {
    a.Recheck? && Enabled(s, a) && s.tasks[a.task].key == k && Next(s, a).tasks[a.task].Running?
  }

  ghost predicate Displaces(s: System, a: Step, k: Key)
    requires Enabled(s, a)
  {
    k in s.store && !Expired(s.store, k, s.now) && (k !in Next(s, a).store || Next(s, a).store[k] != s.store[k])
  }

  /** The step stores this entry, its key's factory having just succeeded. */
  ghost predicate Stores(s: System, a: Step, k: Key, entry: Entry) {
    && a.Produce? && Enabled(s, a) && s.tasks[a.task].key == k
    && entry == Entry(a.value, a.later + s.tasks[a.task].ttl)
  }

  /** Every entry in the store is there because its key's factory succeeded: a
      failure, a cancellation or a hit caches nothing. */
  lemma {:induction false} OnlySuccessIsCached(states: seq<System>, steps: seq<Step>, i: nat, k: Key) returns (m: nat)
    requires IsRun(states, steps) && i < |states| && k in states[i].store
    ensures m < i && Stores(states[m], steps[m], k, states[i].store[k])
    decreases i
  {
    assert i > 0;
    assert IsStep(states[i - 1], steps[i - 1], states[i]);
    if k in states[i - 1].store && states[i - 1].store[k] == states[i].store[k] {
      m := OnlySuccessIsCached(states, steps, i - 1, k);
    } else {
      m := i - 1;
    }
  }

  /** At this step the task reads an entry that has not expired and is not empty. */
  ghost predicate Hits(s: System, a: Step, t: Id, k: Key, value: Option<Value>) {
    && (a == Recheck(t) || (a.Call? && a.task == t)) && value.Some?
    && k in s.store && s.store[k].value == value && s.now <= s.store[k].expires
  }

  ghost predicate Answers(s: System, a: Step, t: Id, k: Key, value: Option<Value>) {
    || (a.Produce? && a.task == t && a.value == value && Enabled(s, a) && s.tasks[t].key == k)
    || Hits(s, a, t, k, value)
  }

  /** An answer stands once given, and is given by the task's own product or by a hit. */
  lemma AnswerGiven(s: System, a: Step, n: System, t: Id)
    requires IsStep(s, a, n) && t in n.tasks && n.tasks[t].Returned?
    ensures if t in s.tasks && s.tasks[t].Returned? then n.tasks[t] == s.tasks[t] else Answers(s, a, t, n.tasks[t].key, n.tasks[t].value)
  {
    hide Stored, MayEvict, Purged;
  }

  lemma {:induction false} HowAnswered(states: seq<System>, steps: seq<Step>, i: nat, t: Id) returns (m: nat)
    requires IsRun(states, steps) && i < |states| && t in states[i].tasks && states[i].tasks[t].Returned?
    ensures m < i && Answers(states[m], steps[m], t, states[i].tasks[t].key, states[i].tasks[t].value)
    decreases i
  {
    assert i > 0;
    assert IsStep(states[i - 1], steps[i - 1], states[i]);
    hide IsStep, Answers;
    AnswerGiven(states[i - 1], steps[i - 1], states[i], t);
    if t in states[i - 1].tasks && states[i - 1].tasks[t].Returned? {
      m := HowAnswered(states, steps, i - 1, t);
    } else {
      m := i - 1;
    }
  }

  /** Every value returned was produced by a factory for that very key: by the task's
      own, or by one that had succeeded before and whose value had not expired when read. */
  lemma ReturnedIsFresh(states: seq<System>, steps: seq<Step>, i: nat, t: Id) returns (m: nat, source: nat, entry: Entry)
    requires IsRun(states, steps) && i < |states| && t in states[i].tasks && states[i].tasks[t].Returned?
    ensures source <= m < i && Stores(states[source], steps[source], states[i].tasks[t].key, entry)
    ensures entry.value == states[i].tasks[t].value
    ensures if source == m then steps[m].task == t
      else states[m].now <= entry.expires && (steps[m] == Recheck(t) || (steps[m].Call? && steps[m].task == t))
  {
    m := HowAnswered(states, steps, i, t);
    var k, v := states[i].tasks[t].key, states[i].tasks[t].value;
    if Hits(states[m], steps[m], t, k, v) {
      source := OnlySuccessIsCached(states, steps, m, k);
      entry := states[m].store[k];
    } else {
      source := m;
      entry := Entry(v, steps[m].later + states[m].tasks[t].ttl);
    }
  }

  ghost predicate Undisturbed(states: seq<System>, steps: seq<Step>, i: nat, j: nat, k: Key)
    requires IsRun(states, steps) && j < |states|
  {
    forall m :: i < m < j ==> IsStep(states[m], steps[m], states[m + 1]) && !Displaces(states[m], steps[m], k)
  }

  /** From a factory's success on, as long as nothing displaces its entry, the entry is there until it expires. */
  lemma {:induction false} EntryStays(states: seq<System>, steps: seq<Step>, i: nat, j: nat, k: Key, entry: Entry)
    requires IsRun(states, steps) && i < j < |states| && Stores(states[i], steps[i], k, entry)
    requires Undisturbed(states, steps, i, j, k)
    ensures states[j].now > entry.expires || (k in states[j].store && states[j].store[k] == entry)
    decreases j
  {
    assert IsStep(states[j - 1], steps[j - 1], states[j]);
    if i + 1 < j {
      EntryStays(states, steps, i, j - 1, k, entry);
      assert !Displaces(states[j - 1], steps[j - 1], k);
    }
  }

  /** One flight: after a factory produced a value for a key, no factory for that key
      starts before the value expires, unless its entry was displaced. */
  lemma NoSecondFlight(states: seq<System>, steps: seq<Step>, i: nat, j: nat, k: Key, entry: Entry)
    requires IsRun(states, steps) && i < j < |steps| && Stores(states[i], steps[i], k, entry)
    requires entry.value.Some? && Starts(states[j], steps[j], k) && Undisturbed(states, steps, i, j, k)
    ensures states[j].now > entry.expires
  {
    EntryStays(states, steps, i, j, k, entry);
  }

  // ---------- hits, and entries taken away ----------

  /** A call that finds an unexpired value has it at once and changes nothing; any other goes on to the lock. */
  lemma HitAtOnce(s: System, t: Id, k: Key, ttl: real)
    requires Enabled(s, Call(t, k, ttl))
    ensures var n := Next(s, Call(t, k, ttl));
      if k in s.store && s.now <= s.store[k].expires && s.store[k].value.Some? then
        n == s.(tasks := s.tasks[t := Returned(k, s.store[k].value)])
      else n.tasks == s.tasks[t := AtGuard(k, ttl)]
  {
  }

  ghost predicate Removes(a: Step, k: Key) {
    a == Invalidate(k) || a == Clear
  }

  /** An entry in the store has been there, untouched, since its factory stored it. */
  lemma {:induction false} StoredSince(states: seq<System>, steps: seq<Step>, i: nat, k: Key) returns (m: nat)
    requires IsRun(states, steps) && i < |states| && k in states[i].store
    ensures m < i && Stores(states[m], steps[m], k, states[i].store[k])
    ensures forall x :: m < x < i ==> !Removes(steps[x], k)
    decreases i
  {
    assert i > 0;
    assert IsStep(states[i - 1], steps[i - 1], states[i]);
    if k in states[i - 1].store && states[i - 1].store[k] == states[i].store[k] {
      m := StoredSince(states, steps, i - 1, k);
    } else {
      m := i - 1;
    }
  }

  /** After an entry is invalidated, or the cache cleared, no value from before is
      returned any more: whoever asks later gets what a factory produced since. */
  lemma InvalidatedIsGone(states: seq<System>, steps: seq<Step>, i: nat, j: nat, t: Id, k: Key, value: Option<Value>) returns (m: nat, entry: Entry)
    requires IsRun(states, steps) && i < j < |steps| && Removes(steps[i], k)
    requires Answers(states[j], steps[j], t, k, value)
    ensures i < m <= j && Stores(states[m], steps[m], k, entry) && entry.value == value
  {
    if Hits(states[j], steps[j], t, k, value) {
      m := StoredSince(states, steps, j, k);
      entry := states[j].store[k];
      assert steps[m].Produce? && !steps[i].Produce?;
    } else {
      m := j;
      entry := Entry(value, steps[j].later + states[j].tasks[t].ttl);
    }
  }
}
