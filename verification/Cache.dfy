/** A bounded cache whose entries expire: what looking up and storing do to it. */
module Cache {
  import opened FiniteSets
  import opened Options

  type Key = string
  type Value = string

  /** A stored value may itself be absent: it then reads as a miss. */
  datatype Entry = Entry(value: Option<Value>, expires: real)

  type Store = map<Key, Entry>

  // ---------- looking up ----------

  predicate Expired(store: Store, key: Key, now: real)
    requires key in store
  {
    store[key].expires < now
  }

  function Found(store: Store, key: Key, now: real): Option<Value> {
    if key in store && !Expired(store, key, now) then store[key].value else None
  }

  /** A look-up drops the entry it finds expired. */
  function Purged(store: Store, key: Key, now: real): Store {
    if key in store && Expired(store, key, now) then store - {key} else store
  }

  // ---------- storing ----------

  function Live(store: Store, now: real): Store {
    map k | k in store && !Expired(store, k, now) :: store[k]
  }

  /** A full store first drops whatever has expired. */
  function Cleared(store: Store, now: real, max: nat): Store {
    if |store| >= max then Live(store, now) else store
  }

  ghost predicate IsOldest(store: Store, k: Key) {
    k in store && forall x :: x in store ==> store[k].expires <= store[x].expires
  }

  /** If it is still full, one entry goes, of those first to expire. */
  ghost predicate MayEvict(store: Store, now: real, max: nat, victim: Option<Key>) {
    var left := Cleared(store, now, max);
    if |left| >= max then victim.Some? && IsOldest(left, victim.value) else victim == None
  }

  function Stored(store: Store, key: Key, entry: Entry, now: real, max: nat, victim: Option<Key>): Store {
    var left := Cleared(store, now, max);
    (if victim.Some? then left - {victim.value} else left)[key := entry]
  }

  lemma LiveIsSmaller(store: Store, now: real)
    ensures |Live(store, now)| <= |store|
  {
    SubsetSize(Live(store, now).Keys, store.Keys);
  }

  /** Storing never lets the store outgrow its limit. */
  lemma StoredWithin(store: Store, key: Key, entry: Entry, now: real, max: nat, victim: Option<Key>)
    requires max >= 1 && |store| <= max && MayEvict(store, now, max, victim)
    ensures |Stored(store, key, entry, now, max, victim)| <= max
  {
    LiveIsSmaller(store, now);
    var left := Cleared(store, now, max);
    if victim.Some? {
      OneLess(left, victim.value);
      OneMore(left - {victim.value}, key, entry);
    } else {
      OneMore(left, key, entry);
    }
  }

  lemma OneLess(store: Store, key: Key)
    requires key in store
    ensures |store - {key}| == |store| - 1
  {
    assert (store - {key}).Keys == store.Keys - {key};
  }

  lemma OneMore(store: Store, key: Key, entry: Entry)
    ensures |store[key := entry]| <= |store| + 1
  {
    assert store[key := entry].Keys == store.Keys + {key};
  }

  /** Storing changes no other entry it keeps. It drops one that has not expired only
      from a store full of such entries, and then just that one, and none that
      stays expires before it. */
  lemma StoredDropsOldest(store: Store, key: Key, entry: Entry, now: real, max: nat, victim: Option<Key>, lost: Key)
    requires max >= 1 && |store| <= max && MayEvict(store, now, max, victim)
    requires lost in store && !Expired(store, lost, now) && lost !in Stored(store, key, entry, now, max, victim)
    ensures |store| == max && Live(store, now) == store
    ensures forall k :: k in store && k != lost ==> store[lost].expires <= store[k].expires
    ensures forall k :: k in store && k != lost && k != key ==>
      k in Stored(store, key, entry, now, max, victim) && Stored(store, key, entry, now, max, victim)[k] == store[k]
  {
    var live := Live(store, now);
    assert victim == Some(lost);
    assert live.Keys == store.Keys by {
      SameSize(live.Keys, store.Keys);
    }
  }

  /** After storing: the entry itself; all others of a store with room; and of a full
      store those that have not expired, but for one if that makes no room. */
  lemma StoredExactly(store: Store, key: Key, entry: Entry, now: real, max: nat, victim: Option<Key>, k: Key)
    requires MayEvict(store, now, max, victim)
    ensures var after := Stored(store, key, entry, now, max, victim);
      if k == key then k in after && after[k] == entry
      else
        && (k in after ==> k in store && after[k] == store[k])
        && (|store| < max ==> (k in after <==> k in store))
        && (|store| >= max ==> (k in after <==> k in store && now <= store[k].expires && victim != Some(k)))
    ensures victim.Some? <==> |store| >= max && |set x | x in store && now <= store[x].expires| >= max
  {
    assert Live(store, now).Keys == set x | x in store && now <= store[x].expires;
  }

  class TTLCache {
    const defaultTtl: real
    const maxEntries: nat
    var store: Store

    constructor (defaultTtl: real, maxEntries: nat)
      ensures store == map[] && this.defaultTtl == defaultTtl && this.maxEntries == maxEntries
    {
      this.defaultTtl, this.maxEntries, store := defaultTtl, maxEntries, map[];
    }

    method Get(key: Key, now: real) returns (value: Option<Value>)
      modifies this
      ensures value == Found(old(store), key, now) && store == Purged(old(store), key, now)
      ensures value == if key in old(store) && now <= old(store)[key].expires then old(store)[key].value else None
      ensures store == if key in old(store) && old(store)[key].expires < now then old(store) - {key} else old(store)
    {
      if key !in store {
        return None;
      }
      var entry := store[key];
      if entry.expires < now {
        store := store - {key};
        return None;
      }
      return entry.value;
    }

    /** The clock is read when room is made and again when the entry is stored. */
    method Set(key: Key, value: Option<Value>, ttl: Option<real>, now: real, later: real) returns (ghost victim: Option<Key>)
      requires 1 <= maxEntries && |store| <= maxEntries
      modifies this
      ensures MayEvict(old(store), now, maxEntries, victim) && |store| <= maxEntries
      ensures store == Stored(old(store), key, Entry(value, later + (if ttl == None then defaultTtl else ttl.value)), now, maxEntries, victim)
    {
      victim := None;
      if |store| >= maxEntries {
        DropExpired(now);
        if |store| >= maxEntries {
          var oldest := Oldest();
          victim := Some(oldest);
          store := store - {oldest};
        }
      }
      var seconds := if ttl == None then defaultTtl else ttl.value;
      store := store[key := Entry(value, later + seconds)];
      StoredWithin(old(store), key, Entry(value, later + seconds), now, maxEntries, victim);
    }

    method DropExpired(now: real)
      modifies this
      ensures store == Live(old(store), now)
    {
      var expired := set k | k in store && store[k].expires < now;
      while expired != {}
        invariant expired <= store.Keys <= old(store).Keys
        invariant forall k :: k in store ==> store[k] == old(store)[k]
        invariant forall k :: k in old(store) ==> (k in store <==> k in expired || !Expired(old(store), k, now))
        invariant forall k :: k in expired ==> Expired(old(store), k, now)
      {
        var k :| k in expired;
        expired, store := expired - {k}, store - {k};
      }
    }

    method Oldest() returns (oldest: Key)
      requires store != map[]
      ensures IsOldest(store, oldest)
    {
      oldest :| oldest in store;
      var todo := store.Keys - {oldest};
      while todo != {}
        invariant todo <= store.Keys && oldest in store
        invariant forall k :: k in store && k !in todo ==> store[oldest].expires <= store[k].expires
      {
        var k :| k in todo;
        if store[k].expires < store[oldest].expires {
          oldest := k;
        }
        todo := todo - {k};
      }
    }

    method Invalidate(key: Key)
      modifies this
      ensures store == old(store) - {key}
    {
      if key in store {
        store := store - {key};
      }
    }

    method Clear()
      modifies this
      ensures store == map[]
    {
      store := map[];
    }
  }
}
