/**
  The cache-level expiry tests over the in-memory adapter, one method per test:
  each runs the test's steps on a fresh fixture, for any key, value, default
  prefix, leftover table and start time, and its postcondition is what the test asserts.
*/
module CacheScenarios {
  import opened Wrappers
  import opened Codec
  import opened TtlSpec
  import opened Storage
  import opened CacheLayer
  import opened Fixture

  /** Set with TTL 1, read at once, wait 2, read with `deleteIfExpired = true`: null, then the key no longer exists. */
  method GetItemWithDeleteIfExpiredTrue(digest: string -> string, initialPrefix: string, leftover: Store, start: int, key: string, value: Value)
    returns (stored: bool, immediate: Value, afterExpiry: Value, existsAfter: bool)
    ensures stored && immediate == value
    ensures afterExpiry == Null && !existsAfter
  {
    var clock, adapter, cache := SetUp(InMemory, digest, initialPrefix, leftover, start);
    stored := cache.SetItem(key, value, 1);
    immediate := cache.GetItem(key);
    clock.Tick(2);
    afterExpiry := cache.GetItem(key, 0, true);
    existsAfter := cache.ExistsItem(key);
  }

  /**
    Set with TTL 1, read at once, wait 2, read with `deleteIfExpired = false`:
    null, yet the logical key (store key, with the empty prefix) is still among
    the adapter's stored keys, holding the serialized value.
  */
  method GetItemWithDeleteIfExpiredFalse(digest: string -> string, initialPrefix: string, leftover: Store, start: int, key: string, value: Value)
    returns (stored: bool, immediate: Value, afterExpiry: Value, keys: set<string>, keptBlob: Blob)
    ensures stored && immediate == value
    ensures afterExpiry == Null && key in keys
    ensures keptBlob == Encode(value)
  {
    var clock, adapter, cache := SetUp(InMemory, digest, initialPrefix, leftover, start);
    stored := cache.SetItem(key, value, 1);
    immediate := cache.GetItem(key);
    clock.Tick(2);
    afterExpiry := cache.GetItem(key, 0, false);
    EmptyPrefixInMemoryKey(digest, key);
    keys := adapter.StoredKeys();
    keptBlob := adapter.store[key].blob;
  }

  /** Set with TTL 1, wait 2, read with the default flag: null, then the key no longer exists. */
  method GetItemWithDefaultDeleteIfExpired(digest: string -> string, initialPrefix: string, leftover: Store, start: int, key: string, value: Value)
    returns (stored: bool, afterExpiry: Value, existsAfter: bool)
    ensures stored
    ensures afterExpiry == Null && !existsAfter
  {
    var clock, adapter, cache := SetUp(InMemory, digest, initialPrefix, leftover, start);
    stored := cache.SetItem(key, value, 1);
    clock.Tick(2);
    afterExpiry := cache.GetItem(key);
    existsAfter := cache.ExistsItem(key);
  }

  /**
    Prefix isolation: a key written under prefix "a" is not seen under prefix
    "b", and is seen again once the prefix is "a" once more (for a file adapter,
    when its digest is collision-free).
  */
  method PrefixIsolationScenario(kind: AdapterKind, digest: string -> string, initialPrefix: string,
                                 leftover: Store, start: int, key: string, value: Value)
    returns (underOther: bool, underOriginal: bool)
    requires kind == Filesystem ==> CollisionFree(digest)
    ensures !underOther && underOriginal
  {
    var clock, adapter, cache := SetUp(kind, digest, initialPrefix, leftover, start);
    cache.SetPrefix("a");
    var stored := cache.SetItem(key, value);
    cache.SetPrefix("b");
    PrefixIsolation(kind, digest, "a", "b", key);
    underOther := cache.ExistsItem(key);
    cache.SetPrefix("a");
    underOriginal := cache.ExistsItem(key);
  }
}
