/** The browser-side cache over local storage: entries stored under a
    prefixed key with the time they were written, read back with or
    without an age limit, skipped when too large, and cleared by prefix.
    The clock is a parameter; the JSON text of an entry is represented by
    its length, which the caller supplies. */
module Cache {
  import opened Base

  type Time = int

  const Prefix := "ec_cache_"

  /** Time-to-live values in milliseconds. */
  const TtlShort: nat := 60 * 1000
  const TtlMedium: nat := 10 * 60 * 1000
  const TtlLong: nat := 60 * 60 * 1000

  /** The per-key payload size limit in characters; 0 for keys without one. */
  function MaxSize(key: string): nat {
    if key == "current_expenses" then 100000
    else if key == "event_history" then 200000
    else if key == "users_list" then 50000
    else 0
  }

  /** What local storage holds under a key: a cache payload `{data, ts}`,
      or some other text (written by other parts of the application). */
  datatype Item<D> = Payload(data: D, ts: Time) | Text(text: string)

  /** `get(key, ttl)`: the stored data, unless the key is absent or, with a
      positive TTL (0 stands for none given), the entry is older than it. */
  function Lookup<D>(store: map<string, Item<D>>, key: string, ttl: nat, now: Time): (r: Option<D>)
    ensures Prefix + key !in store ==> r.None?
    ensures r.Some? ==> Prefix + key in store && store[Prefix + key].Payload? && store[Prefix + key].data == r.value
    ensures Prefix + key in store && store[Prefix + key].Payload? ==>
      (r.Some? <==> ttl == 0 || now - store[Prefix + key].ts <= ttl)
  {
    var k := Prefix + key;
    if k !in store then None
    else match store[k]
      case Text(_) => None
      case Payload(d, ts) => if ttl != 0 && now - ts > ttl then None else Some(d)
  }

  /** `getSoft(key)`: the stored data whatever its age. */
  function LookupSoft<D>(store: map<string, Item<D>>, key: string): (r: Option<D>)
    ensures forall now :: r == Lookup(store, key, 0, now)
  {
    var k := Prefix + key;
    if k in store && store[k].Payload? then Some(store[k].data) else None
  }

  /** `isStale(key, ttl)`: missing, or older than the TTL. */
  function Stale<D>(store: map<string, Item<D>>, key: string, ttl: nat, now: Time): (b: bool)
    ensures ttl > 0 ==> (b <==> Lookup(store, key, ttl, now).None?)
  {
    var k := Prefix + key;
    if k !in store then true
    else match store[k]
      case Text(_) => true
      case Payload(_, ts) => now - ts > ttl
  }

  /** Whether `set` writes: a payload longer than the key's limit is skipped. */
  predicate Fits(key: string, size: nat) {
    MaxSize(key) == 0 || size <= MaxSize(key)
  }

  /** The store after `set(key, data)` at `now`, the payload being `size`
      characters long. */
  function Stored<D>(store: map<string, Item<D>>, key: string, data: D, size: nat, now: Time): map<string, Item<D>> {
    if Fits(key, size) then store[Prefix + key := Payload(data, now)] else store
  }

  /** Round trip: what was written is read back while its age is within
      the TTL, and with no TTL at all; a skipped write leaves the previous
      entry; no other key changes. */
  lemma SetThenGet<D>(store: map<string, Item<D>>, key: string, data: D, size: nat, now: Time, ttl: nat, later: Time)
    requires Fits(key, size)
    ensures later - now <= ttl ==> Lookup(Stored(store, key, data, size, now), key, ttl, later) == Some(data)
    ensures LookupSoft(Stored(store, key, data, size, now), key) == Some(data)
    ensures ttl > 0 && later - now > ttl ==> Lookup(Stored(store, key, data, size, now), key, ttl, later).None?
  {
  }

  lemma SetOthersUnchanged<D>(store: map<string, Item<D>>, key: string, data: D, size: nat, now: Time, other: string)
    ensures !Fits(key, size) ==> Stored(store, key, data, size, now) == store
    ensures other != key ==> forall ttl, t :: Lookup(Stored(store, key, data, size, now), other, ttl, t) == Lookup(store, other, ttl, t)
  {
    assert (Prefix + other)[|Prefix|..] == other;
    assert (Prefix + key)[|Prefix|..] == key;
  }

  /** The store without the cache's own entries. */
  function Unprefixed<D>(store: map<string, Item<D>>): (m: map<string, Item<D>>)
    ensures forall k :: k in m <==> k in store && !(Prefix <= k)
    ensures forall k :: k in m ==> m[k] == store[k]
  {
    map k | k in store && !(Prefix <= k) :: store[k]
  }

  /** After clearing, no cache entry is found. */
  lemma ClearedIsEmpty<D>(store: map<string, Item<D>>, key: string, ttl: nat, now: Time)
    ensures Lookup(Unprefixed(store), key, ttl, now).None?
    ensures Stale(Unprefixed(store), key, ttl, now)
  {
    assert Prefix <= Prefix + key;
  }

  class LocalCache<D> {
    /** The whole of local storage. */
    var store: map<string, Item<D>>

    constructor (store: map<string, Item<D>>)
      ensures this.store == store
    {
      this.store := store;
    }

    function Get(key: string, ttl: nat, now: Time): Option<D>
      reads this
    {
      Lookup(store, key, ttl, now)
    }

    function GetSoft(key: string): Option<D>
      reads this
    {
      LookupSoft(store, key)
    }

    function IsStale(key: string, ttl: nat, now: Time): bool
      reads this
    {
      Stale(store, key, ttl, now)
    }

    /** `set(key, data)`. */
    method Set(key: string, data: D, size: nat, now: Time)
      modifies this
      ensures store == Stored(old(store), key, data, size, now)
      ensures Fits(key, size) ==> Get(key, 0, now) == Some(data)
    {
      if MaxSize(key) != 0 && size > MaxSize(key) {
        return;
      }
      store := store[Prefix + key := Payload(data, now)];
    }

    /** `invalidate(key)`: only that entry goes. */
    method Invalidate(key: string)
      modifies this
      ensures store == old(store) - {Prefix + key}
      ensures forall ttl, now :: Get(key, ttl, now).None?
    {
      store := store - {Prefix + key};
    }

    /** `clear()`: every prefixed key is removed, one at a time. */
    method Clear()
      modifies this
      ensures store == Unprefixed(old(store))
    {
      var keys := set k | k in store && Prefix <= k;
      while keys != {}
        invariant keys <= store.Keys
        invariant forall k :: k in store <==> k in old(store) && (!(Prefix <= k) || k in keys)
        invariant forall k :: k in store ==> store[k] == old(store)[k]
        decreases keys
      {
        var k :| k in keys;
        store := store - {k};
        keys := keys - {k};
      }
      assert store == Unprefixed(old(store));
    }
  }
}
