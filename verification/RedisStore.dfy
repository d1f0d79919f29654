/** The Redis side of vivacapi/core/cache.py: a store of counters and cached bodies with
    expiry times, and the client functions that swallow every Redis error. */
module RedisStore {
  import opened Wrappers
  import opened RedisKeys
  import Text

  datatype Value<+B> = Counter(n: nat) | Body(body: B)

  /** A stored value and the time from which it counts as expired, if it has one. */
  datatype Item<+B> = Item(value: Value<B>, deadline: Option<nat>)

  type Store<B> = map<string, Item<B>>

  predicate Live<B>(store: Store<B>, now: nat, key: string) {
    key in store && (store[key].deadline.Some? ==> now < store[key].deadline.value)
  }

  /** GET, as the cached-body readers use it. */
  function Lookup<B>(store: Store<B>, now: nat, key: string): Option<B> {
    if Live(store, now, key) && store[key].value.Body? then Some(store[key].value.body) else None
  }

  /** GET, as the version readers use it: a missing key counts as 0. */
  function CounterAt<B>(store: Store<B>, now: nat, key: string): nat {
    if Live(store, now, key) && store[key].value.Counter? then store[key].value.n else 0
  }

  /** INCR: the expiry of a live key is kept, a missing or expired key starts at 1 without one. */
  function Incr<B>(store: Store<B>, now: nat, key: string): Store<B> {
    if Live(store, now, key) then
      if store[key].value.Counter? then
        store[key := store[key].(value := Counter(store[key].value.n + 1))]
      else
        store
    else
      store[key := Item(Counter(1), None)]
  }

  /** SET with an expiry. */
  function SetEx<B>(store: Store<B>, now: nat, key: string, body: B, ttl: nat): Store<B> {
    store[key := Item(Body(body), Some(now + ttl))]
  }

  /** EXPIRE NX: sets an expiry only on a live key that has none. */
  function ExpireNx<B>(store: Store<B>, now: nat, key: string, ttl: nat): Store<B> {
    if Live(store, now, key) && store[key].deadline.None? then
      store[key := store[key].(deadline := Some(now + ttl))]
    else
      store
  }

  predicate OnlyChanges<B(==)>(before: Store<B>, after: Store<B>, key: string) {
    after - {key} == before - {key}
  }

  /** The module-level client. `now` is the server clock; `up` is false when no client is
      configured or the command fails, in which case every function falls back silently. */
  class Client<B(==)> {
    var store: Store<B>

    constructor ()
      ensures store == map[]
    {
      store := map[];
    }

    method GetCached(key: string, now: nat, up: bool) returns (body: Option<B>)
      ensures body.Some? <==> up && Live(store, now, key) && store[key].value.Body?
      ensures body.Some? ==> store[key].value == Body(body.value)
    {
      body := if up then Lookup(store, now, key) else None;
    }

    method SetCached(key: string, body: B, ttl: nat, now: nat, up: bool)
      modifies this
      ensures OnlyChanges(old(store), store, key)
      ensures store == if up then SetEx(old(store), now, key, body, ttl) else old(store)
      ensures up ==> forall t :: t >= now ==>
        Lookup(store, t, key) == if t < now + ttl then Some(body) else None
    {
      if up {
        store := SetEx(store, now, key, body, ttl);
      }
    }

    method SpotDetailKey(uid: string, now: nat, up: bool) returns (key: string)
      ensures key ==
        EntryKey(Detail(uid), if up then CounterAt(store, now, VersionKey(TargetOf(Detail(uid)))) else 0)
    {
      var version := if up then CounterAt(store, now, VersionKey(DetailOf(uid))) else 0;
      key := "spots:detail:" + uid + ":v" + Text.Decimal(version);
    }

    /** `digest` is the SHA-256 digest of the parameter string. */
    method MakeSpotsListKey(digest: string, now: nat, up: bool) returns (key: string)
      ensures key ==
        EntryKey(Listing(digest), if up then CounterAt(store, now, VersionKey(TargetOf(Listing(digest)))) else 0)
    {
      var version := if up then CounterAt(store, now, VersionKey(AllLists)) else 0;
      key := "spots:list:v" + Text.Decimal(version) + ":" + digest;
    }

    method BumpSpotsVersion(now: nat, up: bool)
      requires VersionKey(AllLists) in store ==>
        store[VersionKey(AllLists)].value.Counter? && store[VersionKey(AllLists)].deadline.None?
      modifies this
      ensures OnlyChanges(old(store), store, VersionKey(AllLists))
      ensures store == if up then Incr(old(store), now, VersionKey(AllLists)) else old(store)
      ensures forall t :: CounterAt(store, t, VersionKey(AllLists))
                          == old(CounterAt(store, now, VersionKey(AllLists))) + (if up then 1 else 0)
    {
      if up {
        store := Incr(store, now, VersionKey(AllLists));
      }
    }

    method InvalidateSpotDetail(uid: string, now: nat, up: bool)
      requires VersionKey(DetailOf(uid)) in store ==>
        store[VersionKey(DetailOf(uid))].value.Counter? && store[VersionKey(DetailOf(uid))].deadline.None?
      modifies this
      ensures OnlyChanges(old(store), store, VersionKey(DetailOf(uid)))
      ensures store == if up then Incr(old(store), now, VersionKey(DetailOf(uid))) else old(store)
      ensures forall t :: CounterAt(store, t, VersionKey(DetailOf(uid)))
                          == old(CounterAt(store, now, VersionKey(DetailOf(uid)))) + (if up then 1 else 0)
    {
      if up {
        store := Incr(store, now, VersionKey(DetailOf(uid)));
      }
    }

    /** INCR and EXPIRE NX in one transaction; the expiry is set by the first increment of a
        window and by no later one. */
    method IncrWithTtl(key: string, ttl: nat, now: nat, up: bool) returns (count: Option<nat>)
      requires ttl > 0
      requires key in store ==> store[key].value.Counter? && store[key].deadline.Some?
      modifies this
      ensures OnlyChanges(old(store), store, key)
      ensures !up ==> count == None && store == old(store)
      ensures up ==> count == Some(old(CounterAt(store, now, key)) + 1)
      ensures up ==> key in store && store[key] == Item(Counter(count.value),
        if old(Live(store, now, key)) then old(store[key].deadline) else Some(now + ttl))
    {
      count := None;
      if up {
        store := Incr(store, now, key);
        store := ExpireNx(store, now, key, ttl);
        count := Some(CounterAt(store, now, key));
      }
    }
  }
}
