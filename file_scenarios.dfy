/**
  The adapter-level expiry tests over a file adapter, whose store keys are the
  cache's digest of prefix and key: each test asks the cache for the store key
  and reads the adapter under it. "The file exists" is membership in the
  adapter's stored keys.
*/
module FileScenarios {
  import opened Wrappers
  import opened Codec
  import opened TtlSpec
  import opened Storage
  import opened CacheLayer
  import opened Fixture

  /** Set with TTL 1, read at once, wait 2, `get(storeKey, false)`: null, then `exists(storeKey)` is false. */
  method GetWithIgnoreTtlFalse(digest: string -> string, initialPrefix: string, leftover: Store, start: int, key: string, value: Value)
    returns (stored: bool, immediate: Value, storeKey: string, afterExpiry: Option<Blob>, existsAfter: bool)
    ensures stored && immediate == value
    ensures storeKey == digest(key)
    ensures afterExpiry == None && !existsAfter
  {
    var clock, adapter, cache := SetUp(Filesystem, digest, initialPrefix, leftover, start);
    stored := cache.SetItem(key, value, 1);
    immediate := cache.GetItem(key);
    storeKey := cache.CalculateStoreKey(key);
    assert "" + key == key;
    clock.Tick(2);
    afterExpiry := adapter.Get(storeKey, false);
    existsAfter := adapter.Exists(storeKey);
  }

  /**
    Set with TTL 1, read at once, wait 2, `get(storeKey, true)`: a blob that
    unserializes to the value written, and the file still exists; a following
    `get(storeKey, false)` returns null and the file is gone.
  */
  method GetWithIgnoreTtlTrue(digest: string -> string, initialPrefix: string, leftover: Store, start: int, key: string, value: Value)
    returns (stored: bool, immediate: Value, storeKey: string, serialized: Option<Blob>,
             keptAfterBypass: bool, enforced: Option<Blob>, keptAfterEnforced: bool)
    ensures stored && immediate == value
    ensures serialized.Some? && Decode(serialized.value) == Some(value)
    ensures keptAfterBypass
    ensures enforced == None && !keptAfterEnforced
  {
    var clock, adapter, cache := SetUp(Filesystem, digest, initialPrefix, leftover, start);
    stored := cache.SetItem(key, value, 1);
    immediate := cache.GetItem(key);
    storeKey := cache.CalculateStoreKey(key);
    clock.Tick(2);
    serialized := adapter.Get(storeKey, true);
    RoundTrip(value);
    keptAfterBypass := storeKey in adapter.StoredKeys();
    enforced := adapter.Get(storeKey, false);
    keptAfterEnforced := storeKey in adapter.StoredKeys();
  }

  /** Set with TTL 1, wait 2, `get(storeKey)` with the default flag: null, then `exists(storeKey)` is false. */
  method GetWithDefaultBehavior(digest: string -> string, initialPrefix: string, leftover: Store, start: int, key: string, value: Value)
    returns (stored: bool, storeKey: string, afterExpiry: Option<Blob>, existsAfter: bool)
    ensures stored
    ensures afterExpiry == None && !existsAfter
  {
    var clock, adapter, cache := SetUp(Filesystem, digest, initialPrefix, leftover, start);
    stored := cache.SetItem(key, value, 1);
    storeKey := cache.CalculateStoreKey(key);
    clock.Tick(2);
    afterExpiry := adapter.Get(storeKey);
    existsAfter := adapter.Exists(storeKey);
  }
}
