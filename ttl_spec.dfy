/**
  The TTL expiry state machine shared by the cache and its storage adapter, as
  pure functions over the adapter's key -> entry table. The classes in
  `Storage` and `CacheLayer` are proved against these functions.

  Reading a store key finds it in one of three states: absent, fresh or
  expired. What happens to an expired entry depends on the layer and its flag:

  - adapter `get(sk, ignoreTtl = false)`: null, and the entry is deleted;
  - adapter `get(sk, ignoreTtl = true)`: the stale blob, the entry is kept;
  - cache `getItem(k, _, deleteIfExpired = true)`: null, and the entry is deleted;
  - cache `getItem(k, _, deleteIfExpired = false)`: null, the entry is kept.
*/
module TtlSpec {
  import opened Wrappers
  import opened Codec

  /** One persisted cache entry: the serialized value and its absolute expiry (`None` = never). */
  datatype Entry = Entry(blob: Blob, expireAt: Option<int>)

  /** The adapter's table, indexed by store key. */
  type Store = map<string, Entry>

  /** The adapter an entry table belongs to; it decides how store keys are formed. */
  datatype AdapterKind = InMemory | Filesystem

  /** An entry still counts as valid at time `now` (the boundary `now == expireAt` counts as expired). */
  predicate IsFresh(e: Entry, now: int)
    ensures e.expireAt.None? ==> IsFresh(e, now)
    ensures e.expireAt.Some? && now >= e.expireAt.value ==> !IsFresh(e, now)
    ensures e.expireAt.Some? && now < e.expireAt.value ==> IsFresh(e, now)
  {
    e.expireAt.None? || now < e.expireAt.value
  }

  /** The absolute expiry of an entry written at `now` with a relative TTL; a TTL of 0 (or below) never expires. */
  function ExpiryFor(now: int, ttl: int): (r: Option<int>)
    ensures r.None? <==> ttl <= 0
    ensures r.Some? ==> r.value - now == ttl
  {
    if ttl > 0 then Some(now + ttl) else None
  }

  /**
    The store key the cache derives from its prefix and a logical key: the
    concatenation itself for the in-memory adapter, its `digest` for a file adapter.
  */
  function StoreKey(kind: AdapterKind, digest: string -> string, prefix: string, key: string): (r: string)
    ensures kind == InMemory ==> |r| == |prefix| + |key| && r[..|prefix|] == prefix && r[|prefix|..] == key
    ensures kind == Filesystem ==> r == digest(prefix + key)
  {
    match kind
    case InMemory => prefix + key
    case Filesystem => digest(prefix + key)
  }

  /** The three states a read can find a store key in. */
  datatype Lookup = Absent | Fresh(blob: Blob) | Expired(blob: Blob)

  function Classify(store: Store, sk: string, now: int): (l: Lookup)
    ensures l.Absent? <==> sk !in store
    ensures !l.Absent? ==> l.blob == store[sk].blob
    ensures l.Fresh? <==> sk in store && IsFresh(store[sk], now)
  {
    if sk !in store then Absent
    else if IsFresh(store[sk], now) then Fresh(store[sk].blob)
    else Expired(store[sk].blob)
  }

  /** The outcome of a read: what the caller gets back and the table afterwards. */
  datatype Read<T> = Read(result: T, after: Store)

  /** Adapter `get(sk, ignoreTtl)`. */
  function AdapterGet(store: Store, now: int, sk: string, ignoreTtl: bool): (r: Read<Option<Blob>>)
    ensures r.result.Some? <==> sk in store && (ignoreTtl || IsFresh(store[sk], now))
    ensures r.result.Some? ==> r.result.value == store[sk].blob
    ensures r.after == if sk in store && !ignoreTtl && !IsFresh(store[sk], now) then store - {sk} else store
  {
    match Classify(store, sk, now)
    case Absent => Read(None, store)
    case Fresh(b) => Read(Some(b), store)
    case Expired(b) => if ignoreTtl then Read(Some(b), store) else Read(None, store - {sk})
  }

  /** The value the cache hands back for a blob: the decoded value, or null when the blob does not decode. */
  function Decoded(b: Option<Blob>): (r: Value)
    ensures b.None? ==> r == Null
    ensures b.Some? && Decode(b.value).None? ==> r == Null
    ensures b.Some? && Decode(b.value).Some? ==> r == Decode(b.value).value
  {
    match b
    case None => Null
    case Some(blob) =>
      match Decode(blob)
      case Some(v) => v
      case None => Null
  }

  /** Cache `getItem(k, _, deleteIfExpired)` at store key `sk`. */
  function CacheGet(store: Store, now: int, sk: string, deleteIfExpired: bool): (r: Read<Value>)
    ensures r.after.Keys <= store.Keys
    ensures forall k :: k in store && k != sk ==> k in r.after && r.after[k] == store[k]
    ensures r.after != store ==> deleteIfExpired && sk in store && !IsFresh(store[sk], now)
    ensures sk !in store ==> r == Read(Null, store)
    ensures sk in store && IsFresh(store[sk], now) ==> r == Read(Decoded(Some(store[sk].blob)), store)
    ensures sk in store && !IsFresh(store[sk], now) ==> r.result == Null
  {
    match Classify(store, sk, now)
    case Absent => Read(Null, store)
    case Fresh(b) => Read(Decoded(Some(b)), store)
    case Expired(_) => Read(Null, if deleteIfExpired then store - {sk} else store)
  }

  // ---------------------------------------------------------------------------
  // Expiry over time.

  /** Time only moves forward: an entry that has expired stays expired. */
  lemma ExpiredStaysExpired(e: Entry, now: int, later: int)
    requires !IsFresh(e, now) && now <= later
    ensures !IsFresh(e, later)
  {
  }

  /** An entry written with a positive TTL is fresh when written and expired strictly after its TTL. */
  lemma TtlWindow(b: Blob, written: int, ttl: int, now: int)
    requires ttl > 0
    ensures IsFresh(Entry(b, ExpiryFor(written, ttl)), written)
    ensures now > written + ttl ==> !IsFresh(Entry(b, ExpiryFor(written, ttl)), now)
  {
  }

  // ---------------------------------------------------------------------------
  // Cache-level reads.

  /** A fresh entry reads back as the value that was written, and the read changes nothing. */
  lemma FreshReadReturnsValue(store: Store, now: int, sk: string, v: Value, expireAt: Option<int>, deleteIfExpired: bool)
    requires IsFresh(Entry(Encode(v), expireAt), now)
    ensures var s := store[sk := Entry(Encode(v), expireAt)];
            CacheGet(s, now, sk, deleteIfExpired) == Read(v, s)
  {
    RoundTrip(v);
  }

  /** Writing with TTL 0 (or omitted) never expires: the value reads back at any later time. */
  lemma NeverExpires(store: Store, written: int, now: int, sk: string, v: Value, ttl: int, deleteIfExpired: bool)
    requires ttl <= 0
    ensures var s := store[sk := Entry(Encode(v), ExpiryFor(written, ttl))];
            CacheGet(s, now, sk, deleteIfExpired) == Read(v, s)
  {
    FreshReadReturnsValue(store, now, sk, v, ExpiryFor(written, ttl), deleteIfExpired);
  }

  /** Reading right after a write, at the same time, gives back the value written, whatever the TTL. */
  lemma ReadYourWrite(store: Store, now: int, sk: string, v: Value, ttl: int, deleteIfExpired: bool)
    ensures var s := store[sk := Entry(Encode(v), ExpiryFor(now, ttl))];
            CacheGet(s, now, sk, deleteIfExpired) == Read(v, s)
  {
    FreshReadReturnsValue(store, now, sk, v, ExpiryFor(now, ttl), deleteIfExpired);
  }

  /** `deleteIfExpired = true` on an expired entry: null, and the key is gone. */
  lemma ExpiredReadDeletes(store: Store, now: int, sk: string)
    requires sk in store && !IsFresh(store[sk], now)
    ensures CacheGet(store, now, sk, true) == Read(Null, store - {sk})
    ensures sk !in CacheGet(store, now, sk, true).after
  {
  }

  /** `deleteIfExpired = false` on an expired entry: null, and the entry stays stored untouched. */
  lemma ExpiredReadKeeps(store: Store, now: int, sk: string)
    requires sk in store && !IsFresh(store[sk], now)
    ensures CacheGet(store, now, sk, false) == Read(Null, store)
  {
  }

  /** A fresh entry whose blob does not decode is a miss: null, and nothing is deleted. */
  lemma FreshUndecodableReadsNull(store: Store, now: int, sk: string, deleteIfExpired: bool)
    requires sk in store && IsFresh(store[sk], now) && Decode(store[sk].blob).None?
    ensures CacheGet(store, now, sk, deleteIfExpired) == Read(Null, store)
  {
  }

  // ---------------------------------------------------------------------------
  // Adapter-level reads.

  /** `ignoreTtl = true` on an expired entry hands back the stale blob, which still decodes to the value written. */
  lemma BypassReadReturnsBlob(store: Store, now: int, sk: string, v: Value, expireAt: Option<int>)
    ensures var s := store[sk := Entry(Encode(v), expireAt)];
            var r := AdapterGet(s, now, sk, true);
            r.after == s && r.result == Some(Encode(v)) && Decode(r.result.value) == Some(v)
  {
    RoundTrip(v);
  }

  /** `ignoreTtl = false` on an expired entry: null, and the key is gone. */
  lemma EnforcedReadDeletes(store: Store, now: int, sk: string)
    requires sk in store && !IsFresh(store[sk], now)
    ensures AdapterGet(store, now, sk, false) == Read(None, store - {sk})
  {
  }

  /** A bypass read does not refresh an expired entry: a later enforcing read still returns null and deletes it. */
  lemma BypassDoesNotRefresh(store: Store, now: int, later: int, sk: string)
    requires sk in store && !IsFresh(store[sk], now) && now <= later
    ensures var first := AdapterGet(store, now, sk, true);
            first.after == store &&
            AdapterGet(first.after, later, sk, false) == Read(None, store - {sk})
  {
    ExpiredStaysExpired(store[sk], now, later);
  }

  // ---------------------------------------------------------------------------
  // How the two layers' flags relate.

  /**
    The cache's `deleteIfExpired = true` is the adapter's `ignoreTtl = false` seen
    through the serializer: same table afterwards, and the cache's value is the
    decoded adapter result.
  */
  lemma EnforcingFlagsAgree(store: Store, now: int, sk: string)
    ensures CacheGet(store, now, sk, true).after == AdapterGet(store, now, sk, false).after
    ensures CacheGet(store, now, sk, true).result == Decoded(AdapterGet(store, now, sk, false).result)
  {
  }

  /**
    The layers are not a pass-through for the other flag: on an expired entry both
    keep the table, but the cache returns null while the adapter returns the blob.
  */
  lemma KeepingFlagsDiffer(store: Store, now: int, sk: string)
    requires sk in store && !IsFresh(store[sk], now)
    ensures CacheGet(store, now, sk, false).after == AdapterGet(store, now, sk, true).after == store
    ensures CacheGet(store, now, sk, false).result == Null
    ensures AdapterGet(store, now, sk, true).result == Some(store[sk].blob)
  {
  }

  // ---------------------------------------------------------------------------
  // Store keys.

  /** With an empty prefix the in-memory adapter stores under the logical key itself. */
  lemma EmptyPrefixInMemoryKey(digest: string -> string, key: string)
    ensures StoreKey(InMemory, digest, "", key) == key
  {
  }

  /** Under one prefix, distinct logical keys have distinct in-memory store keys. */
  lemma InMemoryKeysDistinct(digest: string -> string, prefix: string, k1: string, k2: string)
    requires k1 != k2
    ensures StoreKey(InMemory, digest, prefix, k1) != StoreKey(InMemory, digest, prefix, k2)
  {
    assert (prefix + k1)[|prefix|..] == k1;
    assert (prefix + k2)[|prefix|..] == k2;
  }

  /** The digest a file adapter's store keys are made with never maps two inputs to one key. */
  ghost predicate CollisionFree(digest: string -> string) {
    forall a, b :: a != b ==> digest(a) != digest(b)
  }

  /**
    A key written under one prefix is not found under another: always for the
    in-memory adapter, and for a file adapter whenever its digest is collision-free.
  */
  lemma PrefixIsolation(kind: AdapterKind, digest: string -> string, p1: string, p2: string, key: string)
    requires p1 != p2
    requires kind == Filesystem ==> CollisionFree(digest)
    ensures StoreKey(kind, digest, p1, key) != StoreKey(kind, digest, p2, key)
  {
    assert (p1 + key)[..|p1|] == p1;
    assert (p2 + key)[..|p2|] == p2;
  }
}
