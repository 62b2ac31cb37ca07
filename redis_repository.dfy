/** internal/repository/redis.go: RedisRepository, the cache adapter the service
    writes on create and reads first on resolve. */
module RedisCache {
  import opened Common
  import Kv

  /** defaultCacheTTL. */
  const DefaultCacheTTL: nat := Kv.TwentyFourHours

  /** "redis: failed to set key <code>: %w" */
  function SetFailure(shortCode: string, cause: Error): Error {
    Wrapped("redis: failed to set key " + shortCode, cause)
  }

  /** "redis: key not found: <code>": built without %w, so it wraps nothing. */
  function KeyNotFound(shortCode: string): Error {
    Message("redis: key not found: " + shortCode)
  }

  /** "redis: can't get value by key <code>: %w" */
  function GetFailure(shortCode: string, cause: Error): Error {
    Wrapped("redis: can't get value by key " + shortCode, cause)
  }

  /** What Get returns for a server holding `entries` at instant `now`. */
  function Fetch(entries: map<string, Kv.Entry>, now: Time, shortCode: string, down: bool): (got: (string, Option<Error>))
    ensures got.1.None? <==> !down && Kv.Lookup(entries, now, shortCode).Ok?
    ensures got.1.None? ==> got.0 == entries[shortCode].value
    ensures got.1.Some? ==> got.0 == ""
    // a miss and a transport failure both come back as errors, and neither is redis.Nil
    ensures got.1.Some? ==> !Is(got.1.value, Redis(Nil))
    ensures got.1.Some? ==> (Is(got.1.value, Redis(Unreachable)) <==> down)
  {
    if down then ("", Some(GetFailure(shortCode, Redis(Unreachable))))
    else match Kv.Lookup(entries, now, shortCode)
      case Ok(v) => (v, None)
      case Err(_) => ("", Some(KeyNotFound(shortCode)))
  }

  /** A Set is visible to Get for exactly 24 hours. */
  lemma SetThenGet(entries: map<string, Kv.Entry>, now: Time, shortCode: string, originalURL: string, elapsed: nat)
    ensures var after := entries[shortCode := Kv.Entry(originalURL, now + DefaultCacheTTL)];
      Fetch(after, now + elapsed, shortCode, false) ==
        if elapsed < DefaultCacheTTL then (originalURL, None) else ("", Some(KeyNotFound(shortCode)))
  {
  }

  class RedisRepository {
    const redis: Kv.RedisServer

    constructor (redis: Kv.RedisServer)
      ensures this.redis == redis
    {
      this.redis := redis;
    }

    method Set(shortCode: string, originalURL: string, down: bool) returns (err: Option<Error>)
      modifies redis
      ensures redis.clock == old(redis.clock)
      ensures down ==> err == Some(SetFailure(shortCode, Redis(Unreachable))) && redis.entries == old(redis.entries)
      ensures !down ==> err == None
      ensures !down ==>
        redis.entries == old(redis.entries)[shortCode := Kv.Entry(originalURL, redis.clock + DefaultCacheTTL)]
    {
      var e := redis.Set(shortCode, originalURL, DefaultCacheTTL, down);
      if e.Some? {
        return Some(SetFailure(shortCode, e.value));
      }
      return None;
    }

    method Get(shortCode: string, down: bool) returns (val: string, err: Option<Error>)
      ensures (val, err) == Fetch(redis.entries, redis.clock, shortCode, down)
    {
      var r := redis.Get(shortCode, down);
      if r.Err? {
        if r.error == Redis(Nil) {
          return "", Some(KeyNotFound(shortCode));
        }
        return "", Some(GetFailure(shortCode, r.error));
      }
      return r.value, None;
    }
  }
}
