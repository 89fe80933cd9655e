# simple-cache: TTL expiry model

This project models the caching facade of the `voku\cache` library and proves properties of the model. Callers store values under string keys through the `iCache` interface, with an optional prefix, an optional time-to-live (TTL), and a choice of whether a read that finds an expired entry also deletes it. The `Cache` class serializes the value and derives a store key from the prefix and the key. A storage adapter keeps the entry in memory or in a file.

The model covers the TTL expiry state machine that the cache and its adapter share. A read finds a store key absent, fresh or expired. An expired entry is then handled in one of four ways:

- adapter `get(sk, ignoreTtl = false)` (the default) returns null and deletes the entry;
- adapter `get(sk, true)` returns the stale blob and keeps the entry;
- cache `getItem(k, 0, deleteIfExpired = true)` (the default) returns null and deletes the entry;
- cache `getItem(k, 0, false)` returns null and keeps the entry.

Modules:

- `Wrappers`: the `Option` type.
- `Codec`: the serializer. It uses a stand-in wire format over integer tokens, so the round-trip law `Decode(Encode(v)) == Some(v)` is proved, not assumed. A blob that does not decode counts as a miss.
- `TtlSpec`: the state machine as pure functions over the adapter's `map<string, Entry>` table:
  - `IsFresh`, `ExpiryFor`, `StoreKey` and `Classify` (absent / fresh / expired);
  - `AdapterGet` and `CacheGet`;
  - the lemmas relating them.
- `Storage`: a `Clock` class whose `Tick` replaces `sleep`, and the `Adapter` class. The adapter has `put`, `get`, `exists`, `remove` and `removeAll`, plus `StoredKeys()`, which stands for `getStaticKeys()` and `file_exists`.
- `CacheLayer`: the `Cache` class with the six `iCache` operations, `setPrefix` and `calculateStoreKey`.
- `Fixture`: the per-test setup. It builds a new adapter over whatever an earlier run left behind (the in-memory table is static, and the cache directory outlives the process). It then builds a cache with an arbitrary default prefix, resets the prefix to `''` and calls `removeAll`.
- `CacheScenarios`, `AdapterScenarios`, `FileScenarios`: one method per test of the three expiry test suites. Each runs the test's steps for any key, value, default prefix, leftover table and start time. Its postcondition is what the test asserts.

Modelling choices:

- The in-memory adapter's store key is `prefix + key`: with the empty prefix, the tests read the adapter under the logical key. A file adapter's store key is `digest(prefix + key)`. `digest` is an arbitrary function given to the cache, so the key is deterministic, but it is injective only where a lemma requires that.
- The PHP defaults (`ttl = 0`, `forceStaticCacheHitCounter = 0`, `deleteIfExpired = true`, `ignoreTtl = false`) are Dafny default parameters. A call that omits the argument is therefore the same call as one that passes the default.
- PHP's `null` result is `Codec.Null`. As in PHP, a stored `null` cannot be told apart from a miss.
- `getItem` with `deleteIfExpired = true` delegates to the adapter's `get(sk)`. With `false`, the cache checks freshness on the adapter's entry itself and returns null without deleting. The cache owns the expiry policy, so this result is not derived from `ignoreTtl = true`.
- The model counts `now == expireAt` as expired. Neither `iCache` nor the expiry tests fix this boundary; the adapters that decide it are not part of this model, so every scenario reads strictly after expiry (TTL 1, then `Tick(2)`).

## Model

| member | source | states |
|---|---|---|
| `Codec.RoundTrip` | tests/DeleteIfExpiredTest.php:73-76 | Unserializing a serialized value always gives the original value back. |
| `Codec.DecodeValueEncode` | tests/DeleteIfExpiredFileTest.php:86-89 | The encoding of a value, followed by any further tokens, parses back to exactly that value and those tokens. |
| `TtlSpec.IsFresh` | tests/DeleteIfExpiredCacheTest.php:39-52 | An entry that never expires is always fresh. An entry with an expiry is fresh strictly before it and expired from that moment on (the model's boundary choice). |
| `TtlSpec.ExpiryFor` | src/voku/cache/iCache.php:25-34 | A TTL of 0 or less means "never expires". A positive TTL expires exactly `ttl` seconds after the write. |
| `TtlSpec.StoreKey` | tests/DeleteIfExpiredFileTest.php:47-51 | The store key is a deterministic function of adapter, prefix and key. For the in-memory adapter it splits back into exactly the prefix and the key; for a file adapter it is the digest of prefix plus key. |
| `TtlSpec.Decoded` | tests/DeleteIfExpiredTest.php:73-76 | No blob reads as null, a blob that does not decode reads as null (a miss), and a blob that decodes reads as its decoded value. |
| `TtlSpec.Classify` | src/voku/cache/iCache.php:14-23 | Every read finds the store key in exactly one of three states (absent, fresh, expired); fresh means the expiry is "never" or still in the future. |
| `TtlSpec.AdapterGet` | tests/DeleteIfExpiredTest.php:50-81 | The adapter `get` returns a blob exactly when the key is stored and is fresh or `ignoreTtl` is set, and that blob is the stored one. The entry is deleted exactly when it is expired and `ignoreTtl` is false. |
| `TtlSpec.CacheGet` | src/voku/cache/iCache.php:14-23 | An absent key reads as null with no side effect. A fresh entry reads as its decoded blob (null if it does not decode) with no side effect. An expired entry reads as null. A read can delete only the key it reads, only when that entry is expired, and only when `deleteIfExpired` is set; every other entry is kept. |
| `TtlSpec.FreshUndecodableReadsNull` | src/voku/cache/iCache.php:14-23 | A fresh entry whose blob does not decode is a miss under either flag: null, and the table is unchanged. |
| `TtlSpec.ExpiredStaysExpired` | tests/DeleteIfExpiredCacheTest.php:47-52 | Once an entry has expired, waiting longer cannot make it fresh again. |
| `TtlSpec.TtlWindow` | tests/DeleteIfExpiredCacheTest.php:40-52 | An entry written with a positive TTL is fresh when written and expired strictly after its TTL. |
| `TtlSpec.FreshReadReturnsValue` | tests/DeleteIfExpiredCacheTest.php:43-45 | Reading a fresh entry returns the value written, whatever the flag, and changes nothing. |
| `TtlSpec.NeverExpires` | src/voku/cache/iCache.php:30-34 | A value written with TTL 0 (or with the TTL omitted) reads back at any time, however late. |
| `TtlSpec.ReadYourWrite` | tests/DeleteIfExpiredTest.php:43-45 | A read at the moment of the write returns the value written, for every TTL. |
| `TtlSpec.ExpiredReadDeletes` | tests/DeleteIfExpiredCacheTest.php:50-56 | With `deleteIfExpired = true`, reading an expired entry returns null and the key is gone afterwards. |
| `TtlSpec.ExpiredReadKeeps` | tests/DeleteIfExpiredCacheTest.php:72-79 | With `deleteIfExpired = false`, reading an expired entry returns null and leaves the table unchanged. |
| `TtlSpec.BypassReadReturnsBlob` | tests/DeleteIfExpiredTest.php:72-81 | Adapter `get(sk, true)` returns the stored blob, however stale, keeps the table unchanged, and the blob decodes to the value written. |
| `TtlSpec.EnforcedReadDeletes` | tests/DeleteIfExpiredTest.php:50-56 | Adapter `get(sk, false)` on an expired entry returns null and removes the key. |
| `TtlSpec.BypassDoesNotRefresh` | tests/DeleteIfExpiredFileTest.php:84-104 | A bypass read keeps an expired entry as it was, so a later enforcing read still returns null and deletes it. |
| `TtlSpec.EnforcingFlagsAgree` | src/voku/cache/iCache.php:19-23 | For every table, cache `deleteIfExpired = true` and adapter `ignoreTtl = false` leave the same table behind. The cache's value is the adapter's blob, decoded. |
| `TtlSpec.KeepingFlagsDiffer` | tests/DeleteIfExpiredCacheTest.php:72-79 | On an expired entry, cache `deleteIfExpired = false` and adapter `ignoreTtl = true` both keep the table. The cache returns null; the adapter returns the stale blob. |
| `TtlSpec.EmptyPrefixInMemoryKey` | tests/DeleteIfExpiredCacheTest.php:110-111 | With the empty prefix and the in-memory adapter, the store key is the logical key itself. |
| `TtlSpec.InMemoryKeysDistinct` | src/voku/cache/iCache.php:47-54 | Under one prefix, distinct logical keys get distinct in-memory store keys, so removing one key never touches another. |
| `TtlSpec.PrefixIsolation` | tests/DeleteIfExpiredFileTest.php:47-51 | The same key under two different prefixes gets two different store keys: always for the in-memory adapter, and for a file adapter whenever its digest is collision-free (no two inputs share a digest). |
| `Storage.Clock.constructor` | tests/DeleteIfExpiredCacheTest.php:40 | The clock starts at the given time. |
| `Storage.Clock.Tick` | tests/DeleteIfExpiredCacheTest.php:47-48 | Waiting advances the clock by exactly the given number of seconds. |
| `Storage.Adapter.constructor` | tests/DeleteIfExpiredTest.php:107 | A new adapter sees whatever table an earlier run left behind. |
| `Storage.Adapter.StoredKeys` | tests/DeleteIfExpiredTest.php:78-81 | The keys listed are exactly the keys stored, expired or not (`getStaticKeys`, `file_exists`). |
| `Storage.Adapter.Put` | tests/DeleteIfExpiredTest.php:40-41 | Writing succeeds. It replaces the entry under the store key with the new blob and expiry, and only that entry. |
| `Storage.Adapter.Get` | tests/DeleteIfExpiredTest.php:50-99 | `get(sk, ignoreTtl = false)` returns and deletes exactly as `AdapterGet` says. Omitting `ignoreTtl` is the same as passing false. |
| `Storage.Adapter.Exists` | tests/DeleteIfExpiredTest.php:54-56 | False when nothing is stored under the key; true for a fresh entry. True implies the key is still stored afterwards. It never changes the table except possibly to drop an expired entry. |
| `Storage.Adapter.Remove` | src/voku/cache/iCache.php:47-54 | Deletion succeeds and removes only that store key. |
| `Storage.Adapter.RemoveAll` | tests/DeleteIfExpiredTest.php:115-116 | Afterwards the table is empty. |
| `CacheLayer.Cache.constructor` | tests/DeleteIfExpiredTest.php:110 | The cache wraps the given adapter and digest and starts with the given default prefix, which the tests then reset. |
| `CacheLayer.Cache.CalculateStoreKey` | tests/DeleteIfExpiredFileTest.php:47-51 | With the in-memory adapter the store key is the prefix followed by the key, so with the empty prefix it is the key itself. With a file adapter it is the digest of prefix plus key. |
| `CacheLayer.Cache.SetPrefix` | tests/DeleteIfExpiredTest.php:112-113 | The prefix becomes the given string. |
| `CacheLayer.Cache.SetItem` | src/voku/cache/iCache.php:25-34 | Returns true. The key's entry is replaced by the serialized value, expiring `ttl` seconds from now (never when `ttl` is 0, the default). An immediate read returns the value under either flag. |
| `CacheLayer.Cache.SetItemToDate` | src/voku/cache/iCache.php:36-45 | Returns true. The key's entry is replaced by the serialized value with the absolute expiry `date`. Before that date, a read returns the value. |
| `CacheLayer.Cache.GetItem` | src/voku/cache/iCache.php:14-23 | Result and new table are as `CacheGet` says for the key's store key. `deleteIfExpired` defaults to true, and the hit counter (default 0) does not affect the result. |
| `CacheLayer.Cache.RemoveItem` | src/voku/cache/iCache.php:47-54 | Returns true. The key's entry is gone, and every other store key keeps its entry. |
| `CacheLayer.Cache.RemoveAll` | src/voku/cache/iCache.php:56-61 | Returns true. The adapter is empty, so no key is present under any prefix. |
| `CacheLayer.Cache.ExistsItem` | src/voku/cache/iCache.php:63-70 | The adapter's `exists` on the key's store key: false when absent, true when fresh. |
| `Fixture.SetUp` | tests/DeleteIfExpiredCacheTest.php:103-115 | After setup the prefix is empty and the adapter holds no entries, whatever default prefix the cache had and whatever earlier runs left. |
| `CacheScenarios.GetItemWithDeleteIfExpiredTrue` | tests/DeleteIfExpiredCacheTest.php:37-57 | `setItem` with TTL 1 returns true, and an immediate read returns the value. After 2 seconds `getItem(k, 0, true)` returns null, and then `existsItem(k)` is false. |
| `CacheScenarios.GetItemWithDeleteIfExpiredFalse` | tests/DeleteIfExpiredCacheTest.php:59-80 | After expiry, `getItem(k, 0, false)` returns null, and `k` is still among the adapter's stored keys, holding the serialized value. |
| `CacheScenarios.GetItemWithDefaultDeleteIfExpired` | tests/DeleteIfExpiredCacheTest.php:82-98 | After expiry, `getItem(k)` returns null, and then `existsItem(k)` is false. |
| `CacheScenarios.PrefixIsolationScenario` | src/voku/cache/iCache.php:63-70 | A key set under prefix "a" is not found by `existsItem` under prefix "b" and is found again after switching back to "a". This holds for the in-memory adapter, and for a file adapter whose digest is collision-free. |
| `AdapterScenarios.GetWithIgnoreTtlFalse` | tests/DeleteIfExpiredTest.php:37-57 | After expiry, adapter `get(k, false)` on the cache-written key returns null, and then `exists(k)` is false. |
| `AdapterScenarios.GetWithIgnoreTtlTrue` | tests/DeleteIfExpiredTest.php:59-82 | After expiry, adapter `get(k, true)` returns a blob that unserializes to the value written, and `k` is still stored. |
| `AdapterScenarios.GetWithDefaultBehavior` | tests/DeleteIfExpiredTest.php:84-100 | After expiry, adapter `get(k)` returns null, and then `exists(k)` is false. |
| `FileScenarios.GetWithIgnoreTtlFalse` | tests/DeleteIfExpiredFileTest.php:37-63 | The store key `calculateStoreKey(k)` is the digest of `k`. After expiry, `get(sk, false)` returns null and `exists(sk)` is false. |
| `FileScenarios.GetWithIgnoreTtlTrue` | tests/DeleteIfExpiredFileTest.php:65-105 | After expiry, `get(sk, true)` returns a blob that decodes to the value written, and the file still exists. A following `get(sk, false)` returns null, and the file is gone. |
| `FileScenarios.GetWithDefaultBehavior` | tests/DeleteIfExpiredFileTest.php:107-129 | After expiry, `get(sk)` returns null, and then `exists(sk)` is false. |

## Left out

- The serializer's real wire format: `SerializerDefault` is not part of this model. `Codec` is a stand-in with the same round-trip law. Its values are a subset of PHP's: there are no objects, no floats and no arrays with string keys (lists stand in for arrays). `Str` values, and keys and prefixes, hold Unicode code points where PHP strings are bytes, and `Int` is unbounded where PHP's integers are 64-bit.
- The digest behind `calculateStoreKey` for file adapters: the hash is not part of this model, so `digest` is an arbitrary total function.
- The file adapter's directory, file names and `getFileName`: "the file exists" is membership in `StoredKeys()`.
- Real time and `sleep`: an explicit `Clock` with `Tick` replaces them.
- `forceStaticCacheHitCounter` bookkeeping: the interface calls it implementation-specific, so the parameter is accepted and has no effect.
- The meaning of the `Cache` constructor's two boolean flags: neither `iCache` nor the expiry tests say what they do, and the `Cache` class that gives them their meaning is not part of this model, so they are not modelled.
- Backend failures: adapter writes and deletions always succeed, so every boolean result is true. A failing filesystem is not modelled.
- Storage.Adapter.Exists: for an entry that has expired but has not been deleted, the contract leaves open whether it reports true and whether it drops the entry, because neither `iCache` nor the expiry tests fix that case and the adapters that decide it are not part of this model. The body reports the entry as present and keeps it.
- CacheLayer.Cache.ExistsItem: inherits that open case, so after `getItem(k, 0, false)` the model does not promise that `existsItem(k)` is still true. Survival of the entry is stated through `StoredKeys()`, as the tests do.
- CacheLayer.Cache.SetItemToDate: validation of the date is not modelled; the date is taken as an absolute Unix timestamp, and a date already in the past stores an entry that is already expired.
- CacheLayer.Cache.SetItem: a `null` TTL is not modelled separately; the model treats it like 0.
- Concurrency between readers and writers: every operation runs to completion before the next one starts.
