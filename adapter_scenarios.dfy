/**
  The adapter-level expiry tests over the in-memory adapter: the cache writes,
  the test then reads the adapter directly under the same key, which with the
  empty prefix is the logical key itself.
*/
module AdapterScenarios {
  import opened Wrappers
  import opened Codec
  import opened TtlSpec
  import opened Storage
  import opened CacheLayer
  import opened Fixture

  /** Set with TTL 1, read at once, wait 2, adapter `get(key, false)`: null, then `exists(key)` is false. */
  method GetWithIgnoreTtlFalse(digest: string -> string, initialPrefix: string, leftover: Store, start: int, key: string, value: Value)
    returns (stored: bool, immediate: Value, afterExpiry: Option<Blob>, existsAfter: bool)
    ensures stored && immediate == value
    ensures afterExpiry == None && !existsAfter
  {
    var clock, adapter, cache := SetUp(InMemory, digest, initialPrefix, leftover, start);
    stored := cache.SetItem(key, value, 1);
    immediate := cache.GetItem(key);
    clock.Tick(2);
    EmptyPrefixInMemoryKey(digest, key);
    afterExpiry := adapter.Get(key, false);
    existsAfter := adapter.Exists(key);
  }

  /**
    Set with TTL 1, read at once, wait 2, adapter `get(key, true)`: the stale
    blob, which unserializes to the value written, and the key is still stored.
  */
  method GetWithIgnoreTtlTrue(digest: string -> string, initialPrefix: string, leftover: Store, start: int, key: string, value: Value)
    returns (stored: bool, immediate: Value, serialized: Option<Blob>, keys: set<string>)
    ensures stored && immediate == value
    ensures serialized.Some? && Decode(serialized.value) == Some(value)
    ensures key in keys
  {
    var clock, adapter, cache := SetUp(InMemory, digest, initialPrefix, leftover, start);
    stored := cache.SetItem(key, value, 1);
    immediate := cache.GetItem(key);
    clock.Tick(2);
    EmptyPrefixInMemoryKey(digest, key);
    serialized := adapter.Get(key, true);
    RoundTrip(value);
    keys := adapter.StoredKeys();
  }

  /** Set with TTL 1, wait 2, adapter `get(key)` with the default flag: null, then `exists(key)` is false. */
  method GetWithDefaultBehavior(digest: string -> string, initialPrefix: string, leftover: Store, start: int, key: string, value: Value)
    returns (stored: bool, afterExpiry: Option<Blob>, existsAfter: bool)
    ensures stored
    ensures afterExpiry == None && !existsAfter
  {
    var clock, adapter, cache := SetUp(InMemory, digest, initialPrefix, leftover, start);
    stored := cache.SetItem(key, value, 1);
    clock.Tick(2);
    EmptyPrefixInMemoryKey(digest, key);
    afterExpiry := adapter.Get(key);
    existsAfter := adapter.Exists(key);
  }
}
