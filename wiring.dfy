/**
 * What the use cases are given as their cache (the CacheRepository
 * interface of internal/domain/repository/cache_repository.go) and the
 * state they act on. cmd/api/main.go passes the *RedisCache that
 * NewRedisCache returned, nil when the server did not answer, so the
 * interface value itself is never nil there: for a typed nil pointer the
 * use cases' "cacheRepo != nil" holds and the adapter's nil-receiver guards
 * do the work. A nil interface, which main.go never builds, is modelled too.
 */
module Wiring {
  import Store
  import opened Cache

  datatype CacheRepository = NilInterface | Adapter(redis: RedisCache?)

  /** The object the interface value points to, if any. */
  function Redis(c: CacheRepository): RedisCache? {
    if c.Adapter? then c.redis else null
  }

  /** The cache as the use cases see it. */
  function CacheOf(c: CacheRepository): CacheView
    reads Redis(c)
  {
    View(Redis(c))
  }

  /** A nil interface and an interface holding a nil pointer behave alike: no cache. */
  lemma NilCacheEitherWay()
    ensures CacheOf(NilInterface) == Absent
    ensures CacheOf(Adapter(null)) == Absent
  {
  }

  /** Everything a use case can change: the tables and the cache's key space. */
  datatype World = World(db: Store.DbState, cache: CacheView)
}
