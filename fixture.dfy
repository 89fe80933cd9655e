/**
  The per-test setup shared by the three expiry test suites: a new adapter over
  whatever earlier tests left behind, a cache over it whatever its default
  prefix, the prefix reset to empty, and the adapter cleared.
*/
module Fixture {
  import opened Codec
  import opened TtlSpec
  import opened Storage
  import opened CacheLayer

  method SetUp(kind: AdapterKind, digest: string -> string, initialPrefix: string, leftover: Store, start: int)
    returns (clock: Clock, adapter: Adapter, cache: Cache)
    ensures fresh(clock) && fresh(adapter) && fresh(cache)
    ensures adapter.kind == kind && adapter.clock == clock && clock.now == start
    ensures cache.adapter == adapter && cache.digest == digest && cache.prefix == ""
    ensures adapter.store == map[]
  {
    clock := new Clock(start);
    adapter := new Adapter(kind, clock, leftover);
    cache := new Cache(adapter, digest, initialPrefix);
    cache.SetPrefix("");
    var cleared := adapter.RemoveAll();
  }
}
