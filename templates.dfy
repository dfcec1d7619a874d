/**
 * The cached value `CachedTemplate` (declared alike in src/app_state.rs and
 * src/main.rs) and the age test of both sweeps. `Instant`s are integer ticks
 * of one second.
 */
module Templates {

  datatype CachedTemplate = CachedTemplate(content: string, lastAccessed: int)

  /** `now.duration_since(earlier)`, which saturates at zero when `earlier` is later than `now`. */
  function Elapsed(now: int, earlier: int): nat {
    if now >= earlier then now - earlier else 0
  }

  /** The sweep's test `now.duration_since(template.last_accessed) >= max_age`. */
  predicate Expired(t: CachedTemplate, now: int, maxAge: nat)
    ensures maxAge == 0 ==> Expired(t, now, maxAge)
    ensures maxAge > 0 ==> (Expired(t, now, maxAge) <==> t.lastAccessed + maxAge <= now)
  {
    Elapsed(now, t.lastAccessed) >= maxAge
  }
}
