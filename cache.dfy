/**
  The cache facade (`iCache`): logical keys and application values on the
  caller's side, store keys and serialized blobs on the adapter's side, and the
  TTL policy in between.
*/
module CacheLayer {
  import opened Wrappers
  import opened Codec
  import opened TtlSpec
  import opened Storage

  class Cache {
    const adapter: Adapter
    /** The hash a file adapter's store keys are made with; unused for the in-memory adapter. */
    const digest: string -> string
    var prefix: string

    /** The prefix a new cache starts with is the library's configured default, which callers reset with `SetPrefix`. */
    constructor (adapter: Adapter, digest: string -> string, initialPrefix: string)
      ensures this.adapter == adapter && this.digest == digest && prefix == initialPrefix
    {
      this.adapter := adapter;
      this.digest := digest;
      prefix := initialPrefix;
    }

    method SetPrefix(prefix: string)
      modifies this
      ensures this.prefix == prefix
    {
      this.prefix := prefix;
    }

    /** `calculateStoreKey(key)`: the adapter-side key for a logical key under the current prefix. */
    function CalculateStoreKey(key: string): (r: string)
      reads this
      ensures adapter.kind == InMemory && prefix == "" ==> r == key
      ensures adapter.kind == InMemory ==> |r| == |prefix| + |key| && r[..|prefix|] == prefix && r[|prefix|..] == key
      ensures adapter.kind == Filesystem ==> r == digest(prefix + key)
    {
      StoreKey(adapter.kind, digest, prefix, key)
    }

    /**
      `setItem(key, value, ttl = 0)`: replaces the entry for `key` with the
      serialized value, expiring `ttl` seconds from now, or never when `ttl` is 0.
      A read at the same moment gives the value back.
    */
    method SetItem(key: string, value: Value, ttl: int := 0) returns (ok: bool)
      modifies adapter
      ensures ok
      ensures adapter.store ==
                old(adapter.store)[CalculateStoreKey(key) := Entry(Encode(value), ExpiryFor(adapter.clock.now, ttl))]
      ensures forall d: bool :: CacheGet(adapter.store, adapter.clock.now, CalculateStoreKey(key), d).result == value
    {
      var sk := CalculateStoreKey(key);
      ok := adapter.Put(sk, Encode(value), ExpiryFor(adapter.clock.now, ttl));
      forall d: bool
        ensures CacheGet(adapter.store, adapter.clock.now, sk, d).result == value
      {
        ReadYourWrite(old(adapter.store), adapter.clock.now, sk, value, ttl, d);
      }
    }

    /** `setItemToDate(key, value, date)`: as `SetItem`, with the absolute expiry `date` instead of a TTL. */
    method SetItemToDate(key: string, value: Value, date: int) returns (ok: bool)
      modifies adapter
      ensures ok
      ensures adapter.store == old(adapter.store)[CalculateStoreKey(key) := Entry(Encode(value), Some(date))]
      ensures adapter.clock.now < date ==>
                forall d: bool :: CacheGet(adapter.store, adapter.clock.now, CalculateStoreKey(key), d).result == value
    {
      var sk := CalculateStoreKey(key);
      ok := adapter.Put(sk, Encode(value), Some(date));
      if adapter.clock.now < date {
        forall d: bool
          ensures CacheGet(adapter.store, adapter.clock.now, sk, d).result == value
        {
          FreshReadReturnsValue(old(adapter.store), adapter.clock.now, sk, value, Some(date), d);
        }
      }
    }

    /**
      `getItem(key, forceStaticCacheHitCounter = 0, deleteIfExpired = true)`:
      the stored value while fresh; null when absent, undecodable or expired; an
      expired entry is deleted only when `deleteIfExpired` holds. The hit counter
      does not affect the result.
    */
    method GetItem(key: string, forceStaticCacheHitCounter: int := 0, deleteIfExpired: bool := true)
      returns (r: Value)
      modifies adapter
      ensures r == CacheGet(old(adapter.store), adapter.clock.now, CalculateStoreKey(key), deleteIfExpired).result
      ensures adapter.store == CacheGet(old(adapter.store), adapter.clock.now, CalculateStoreKey(key), deleteIfExpired).after
    {
      var sk := CalculateStoreKey(key);
      EnforcingFlagsAgree(adapter.store, adapter.clock.now, sk);
      if deleteIfExpired {
        var b := adapter.Get(sk);
        r := Decoded(b);
      } else if sk in adapter.store && IsFresh(adapter.store[sk], adapter.clock.now) {
        r := Decoded(Some(adapter.store[sk].blob));
      } else {
        r := Null;
      }
    }

    /** `removeItem(key)`: deletes the entry for `key`; every other store key keeps its entry. */
    method RemoveItem(key: string) returns (ok: bool)
      modifies adapter
      ensures ok
      ensures adapter.store == old(adapter.store) - {CalculateStoreKey(key)}
      ensures forall sk :: sk in old(adapter.store) && sk != CalculateStoreKey(key) ==>
                sk in adapter.store && adapter.store[sk] == old(adapter.store)[sk]
    {
      ok := adapter.Remove(CalculateStoreKey(key));
    }

    /** `removeAll()`: clears the whole adapter, under every prefix. */
    method RemoveAll() returns (ok: bool)
      modifies adapter
      ensures ok
      ensures adapter.store == map[]
      ensures forall key :: !(CalculateStoreKey(key) in adapter.StoredKeys())
    {
      ok := adapter.RemoveAll();
    }

    /** `existsItem(key)`: the adapter's `exists` on the store key of `key`. */
    method ExistsItem(key: string) returns (r: bool)
      modifies adapter
      ensures var sk := CalculateStoreKey(key);
              && (sk !in old(adapter.store) ==> !r && adapter.store == old(adapter.store))
              && (sk in old(adapter.store) && IsFresh(old(adapter.store)[sk], adapter.clock.now) ==>
                    r && adapter.store == old(adapter.store))
              && (sk in old(adapter.store) && !IsFresh(old(adapter.store)[sk], adapter.clock.now) ==>
                    adapter.store == old(adapter.store) || adapter.store == old(adapter.store) - {sk})
              && (r ==> sk in adapter.store)
    {
      r := adapter.Exists(CalculateStoreKey(key));
    }
  }
}
