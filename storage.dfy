/**
  The storage adapter the cache writes through, and the clock both consult.

  The in-memory adapter keeps its table in a static array shared by every
  instance, and a file adapter keeps it in a directory that outlives the
  process; both are modelled as one `Adapter` object whose `store` may start
  non-empty (left over from earlier users), which is why the test fixtures
  call `removeAll` before each test.
*/
module Storage {
  import opened Wrappers
  import opened Codec
  import opened TtlSpec

  /** The wall clock, advanced explicitly by `Tick` where the tests `sleep`. */
  class Clock {
    var now: int

    constructor (start: int)
      ensures now == start
    {
      now := start;
    }

    method Tick(seconds: nat)
      modifies this
      ensures now == old(now) + seconds
    {
      now := now + seconds;
    }
  }

  class Adapter {
    const kind: AdapterKind
    const clock: Clock
    var store: Store

    constructor (kind: AdapterKind, clock: Clock, leftover: Store)
      ensures this.kind == kind && this.clock == clock && store == leftover
    {
      this.kind := kind;
      this.clock := clock;
      store := leftover;
    }

    /**
      The store keys physically present, expired or not: the in-memory
      adapter's `getStaticKeys()`, or the set of keys whose file exists.
    */
    function StoredKeys(): (keys: set<string>)
      reads this
      ensures forall sk :: sk in keys <==> sk in store
    {
      store.Keys
    }

    /** Persists `blob` under `sk`, replacing any previous entry outright. */
    method Put(sk: string, blob: Blob, expireAt: Option<int>) returns (ok: bool)
      modifies this
      ensures ok
      ensures store == old(store)[sk := Entry(blob, expireAt)]
    {
      store := store[sk := Entry(blob, expireAt)];
      ok := true;
    }

    /**
      `get(sk, ignoreTtl)`: the blob of a fresh entry; with `ignoreTtl` also the
      blob of an expired one, which is then kept; without it, null, and the
      expired entry is deleted.
    */
    method Get(sk: string, ignoreTtl: bool := false) returns (b: Option<Blob>)
      modifies this
      ensures b == AdapterGet(old(store), clock.now, sk, ignoreTtl).result
      ensures store == AdapterGet(old(store), clock.now, sk, ignoreTtl).after
    {
      if sk !in store {
        b := None;
      } else if ignoreTtl || IsFresh(store[sk], clock.now) {
        b := Some(store[sk].blob);
      } else {
        store := store - {sk};
        b := None;
      }
    }

    /**
      `exists(sk)`: false when nothing is stored under `sk`, true for a fresh
      entry, and nothing else changes. For an entry that has expired but was not
      yet deleted the answer and whether it is dropped are left open: this
      model's adapter reports it as present and keeps it.
    */
    method Exists(sk: string) returns (r: bool)
      modifies this
      ensures sk !in old(store) ==> !r && store == old(store)
      ensures sk in old(store) && IsFresh(old(store)[sk], clock.now) ==> r && store == old(store)
      ensures sk in old(store) && !IsFresh(old(store)[sk], clock.now) ==>
                store == old(store) || store == old(store) - {sk}
      ensures r ==> sk in store
    {
      r := sk in store;
    }

    /** Deletes the entry under `sk`, if any. */
    method Remove(sk: string) returns (ok: bool)
      modifies this
      ensures ok
      ensures store == old(store) - {sk}
    {
      store := store - {sk};
      ok := true;
    }

    /** Deletes every entry, whatever prefix it was written under. */
    method RemoveAll() returns (ok: bool)
      modifies this
      ensures ok
      ensures store == map[]
    {
      store := map[];
      ok := true;
    }
  }
}
