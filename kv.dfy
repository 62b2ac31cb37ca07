/** The Redis server the cache adapters talk to: a map from key to value with
    a per-key expiry instant, and the server's own clock. Whether a call reaches
    the server is an input (`down`), since the network is outside the model. */
module Kv {
  import opened Common

  /** 24*time.Hour, in the seconds of `Time`. */
  const TwentyFourHours: nat := 24 * 60 * 60

  datatype Entry = Entry(value: string, expiresAt: Time)

  /** GET on a server holding `entries` at instant `now`: a key is visible
      until its expiry instant, and redis.Nil is the answer otherwise. */
  function Lookup(entries: map<string, Entry>, now: Time, key: string): Result<string> {
    if key in entries && now < entries[key].expiresAt then Ok(entries[key].value)
    else Err(Redis(Nil))
  }

  class RedisServer {
    var entries: map<string, Entry>
    var clock: Time

    constructor ()
      ensures entries == map[] && clock == 0
    {
      entries, clock := map[], 0;
    }

    /** GET key. */
    method Get(key: string, down: bool) returns (r: Result<string>)
      ensures r == if down then Err(Redis(Unreachable)) else Lookup(entries, clock, key)
    {
      if down {
        r := Err(Redis(Unreachable));
      } else if key in entries && clock < entries[key].expiresAt {
        r := Ok(entries[key].value);
      } else {
        r := Err(Redis(Nil));
      }
    }

    /** SET key value EX ttl: last write wins and the expiry restarts. */
    method Set(key: string, value: string, ttl: nat, down: bool) returns (err: Option<Error>)
      modifies this
      ensures clock == old(clock)
      ensures down ==> err == Some(Redis(Unreachable)) && entries == old(entries)
      ensures !down ==> err == None && entries == old(entries)[key := Entry(value, clock + ttl)]
    {
      if down {
        err := Some(Redis(Unreachable));
      } else {
        entries := entries[key := Entry(value, clock + ttl)];
        err := None;
      }
    }
  }
}
