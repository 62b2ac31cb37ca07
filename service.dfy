/** internal/service/service.go: the resolution service. It generates a code,
    creates the durable record and caches it; it resolves a code cache first,
    falling through to the durable store; and it lists what the store lists.
    Its durable store is postgres.go's URLRepository and its cache redis.go's
    RedisRepository. The two may talk to one Redis server or to two. */
module Service {
  import opened Common
  import Kv
  import Sql
  import RedisCache
  import PostgresRepository

  const Charset: string := "abcdefghijklmnopqrstuvwxyzABCDEFGHIJKLMNOPQRSTUVWXYZ0123456789"
  const CodeLength: nat := 6

  /** What the generator promises of a code: six symbols of the charset. */
  predicate ValidCode(code: string) {
    |code| == CodeLength && forall i :: 0 <= i < |code| ==> code[i] in Charset
  }

  /** A draw is what rand.Intn(len(charset)) may return. */
  predicate ValidDraws(draws: seq<nat>) {
    forall i :: 0 <= i < |draws| ==> draws[i] < |Charset|
  }

  /** The code a sequence of draws spells, one charset symbol per draw. */
  function CodeOf(draws: seq<nat>): (code: string)
    requires ValidDraws(draws)
  {
    seq(|draws|, i requires 0 <= i < |draws| => Charset[draws[i]])
  }

  /** Every code of six charset symbols is spelt by some six draws, so no
      part of the code space is out of the generator's reach. */
  lemma EveryCodeReachable(code: string)
    requires ValidCode(code)
    ensures exists draws :: |draws| == CodeLength && ValidDraws(draws) && CodeOf(draws) == code
  {
    var draws := seq(|code|, i requires 0 <= i < |code| => IndexIn(code[i]));
    assert CodeOf(draws) == code;
  }

  /** A position of `c` in the charset. */
  ghost function IndexIn(c: char): (k: nat)
    requires c in Charset
    ensures k < |Charset| && Charset[k] == c
  {
    var k :| 0 <= k < |Charset| && Charset[k] == c; k
  }

  /** generateShortCode: fills a six-symbol buffer, drawing each symbol's index
      independently. The random source is a nondeterministic choice. */
  method GenerateShortCode() returns (code: string, ghost draws: seq<nat>)
    ensures |draws| == CodeLength && ValidDraws(draws) && code == CodeOf(draws)
    ensures ValidCode(code)
  {
    var b := new char[CodeLength];
    draws := [];
    for i := 0 to b.Length
      invariant |draws| == i && ValidDraws(draws)
      invariant forall j :: 0 <= j < i ==> b[j] == Charset[draws[j]]
    {
      var k :| 0 <= k < |Charset|;
      b[i] := Charset[k];
      draws := draws + [k];
    }
    code := b[..];
    assert code == CodeOf(draws);
  }

  /** The service's own URL: the store's record without its id. */
  datatype URL = URL(shortCode: string, originalURL: string, createdAt: Time)

  function Project(u: PostgresRepository.URL): URL {
    URL(u.shortCode, u.originalURL, u.createdAt)
  }

  /** GetOriginalURL for table `rows`, the service's cache `front` at
      `frontNow` and the store's cache `back` at `backNow`, with the back
      cache it leaves behind. */
  function Resolution(rows: seq<Sql.Row>, front: map<string, Kv.Entry>, frontNow: Time,
                      back: map<string, Kv.Entry>, backNow: Time,
                      shortCode: string, cacheDown: bool, f: PostgresRepository.ReadFaults): PostgresRepository.Answer
  {
    var fetched := RedisCache.Fetch(front, frontNow, shortCode, cacheDown);
    if fetched.1.None? then PostgresRepository.Answer(Ok(fetched.0), back)
    else PostgresRepository.ReadThrough(rows, back, backNow, shortCode, f)
  }

  /** A cache hit answers with the cached value and touches nothing else,
      whatever the store holds or would do; on any cache error the answer,
      error included, is exactly the store's. */
  lemma ResolutionCases(rows: seq<Sql.Row>, front: map<string, Kv.Entry>, frontNow: Time,
                        back: map<string, Kv.Entry>, backNow: Time,
                        shortCode: string, cacheDown: bool, f: PostgresRepository.ReadFaults)
    ensures var got := Resolution(rows, front, frontNow, back, backNow, shortCode, cacheDown, f);
      && (!cacheDown && Kv.Lookup(front, frontNow, shortCode).Ok? ==>
            got == PostgresRepository.Answer(Ok(front[shortCode].value), back))
      && (cacheDown || Kv.Lookup(front, frontNow, shortCode).Err? ==>
            got == PostgresRepository.ReadThrough(rows, back, backNow, shortCode, f))
  {
  }

  /** While both caches are derived from the table, a resolution answers with
      the table's URL or not at all, finds every code the table has when the
      query runs, reports a code the table lacks as ErrNotFound, whichever cache
      missed, and leaves the caches derived. */
  lemma ResolutionSound(rows: seq<Sql.Row>, front: map<string, Kv.Entry>, frontNow: Time,
                        back: map<string, Kv.Entry>, backNow: Time,
                        shortCode: string, cacheDown: bool, f: PostgresRepository.ReadFaults)
    requires Sql.CacheDerived(rows, front) && Sql.CacheDerived(rows, back)
    ensures var got := Resolution(rows, front, frontNow, back, backNow, shortCode, cacheDown, f);
      && Sql.CacheDerived(rows, got.cache)
      && (got.result.Ok? ==>
            Sql.Find(rows, shortCode).Some? && got.result.value == Sql.Find(rows, shortCode).value.originalURL)
      && (!f.dbDown ==> (got.result.Ok? <==> Sql.Find(rows, shortCode).Some?))
      && (!f.dbDown && Sql.Find(rows, shortCode).None? ==> got.result == Err(NotFound))
  {
    PostgresRepository.ReadThroughSound(rows, back, backNow, shortCode, f);
  }

  /** The round trip: once ShortenURL has inserted `row` and cached it, resolving
      its code gives the submitted URL as long as the cache entry is live or the
      table answers, whichever caches fail. `back` is any store cache derived
      from the new table, the service's own new cache included. */
  lemma ShortenThenResolve(rows: seq<Sql.Row>, front: map<string, Kv.Entry>, frontNow: Time,
                           back: map<string, Kv.Entry>, backNow: Time,
                           row: Sql.Row, elapsed: nat, cacheDown: bool, f: PostgresRepository.ReadFaults)
    requires Sql.CacheDerived(rows, front) && Sql.Find(rows, row.shortCode).None?
    requires Sql.CacheDerived(rows + [row], back)
    requires (!cacheDown && elapsed < RedisCache.DefaultCacheTTL) || !f.dbDown
    ensures var cached := front[row.shortCode := Kv.Entry(row.originalURL, frontNow + RedisCache.DefaultCacheTTL)];
      Resolution(rows + [row], cached, frontNow + elapsed, back, backNow, row.shortCode, cacheDown, f).result
        == Ok(row.originalURL)
  {
    var cached := front[row.shortCode := Kv.Entry(row.originalURL, frontNow + RedisCache.DefaultCacheTTL)];
    Sql.CacheDerivedInsert(rows, front, row, frontNow + RedisCache.DefaultCacheTTL);
    Sql.FindAppend(rows, row, row.shortCode);
    ResolutionSound(rows + [row], cached, frontNow + elapsed, back, backNow, row.shortCode, cacheDown, f);
  }

  class URLService {
    const postgres: PostgresRepository.URLRepository
    const redis: RedisCache.RedisRepository

    /** The table is well formed and neither cache holds a mapping the table lacks. */
    ghost predicate Valid()
      reads postgres.postgres, postgres.redis, redis.redis
    {
      && postgres.postgres.Valid()
      && Sql.CacheDerived(postgres.postgres.rows, redis.redis.entries)
      && Sql.CacheDerived(postgres.postgres.rows, postgres.redis.entries)
    }

    /** NewService, over stores that are consistent to begin with (empty ones are). */
    constructor (postgres: PostgresRepository.URLRepository, redis: RedisCache.RedisRepository)
      requires postgres.postgres.Valid()
      requires Sql.CacheDerived(postgres.postgres.rows, redis.redis.entries)
      requires Sql.CacheDerived(postgres.postgres.rows, postgres.redis.entries)
      ensures this.postgres == postgres && this.redis == redis && Valid()
    {
      this.postgres := postgres;
      this.redis := redis;
    }

    /** One generate and one create, then the cache write. A failed create is
        returned as it is and nothing is cached; a failed cache write fails the
        call although the durable record exists. `shortCode` is the code drawn. */
    method ShortenURL(originalURL: string, dbDown: bool, cacheDown: bool)
      returns (r: Result<URL>, ghost shortCode: string)
      requires Valid()
      modifies postgres.postgres, redis.redis
      ensures Valid() && ValidCode(shortCode)
      ensures postgres.postgres.clock == old(postgres.postgres.clock) && redis.redis.clock == old(redis.redis.clock)
      ensures dbDown || Sql.Find(old(postgres.postgres.rows), shortCode).Some? ==>
        && r == Err(PostgresRepository.CreateFailure(Db(if dbDown then ConnFailure else UniqueViolation)))
        && postgres.postgres.rows == old(postgres.postgres.rows)
        && redis.redis.entries == old(redis.redis.entries)
      ensures !dbDown && Sql.Find(old(postgres.postgres.rows), shortCode).None? ==>
        postgres.postgres.rows == old(postgres.postgres.rows) +
          [Sql.Row(old(postgres.postgres.nextId), shortCode, originalURL, postgres.postgres.clock, 0)]
      ensures !dbDown && Sql.Find(old(postgres.postgres.rows), shortCode).None? && cacheDown ==>
        && r == Err(RedisCache.SetFailure(shortCode, Redis(Unreachable)))
        && redis.redis.entries == old(redis.redis.entries)
      ensures !dbDown && Sql.Find(old(postgres.postgres.rows), shortCode).None? && !cacheDown ==>
        && r == Ok(URL(shortCode, originalURL, postgres.postgres.clock))
        && redis.redis.entries ==
             old(redis.redis.entries)[shortCode := Kv.Entry(originalURL, redis.redis.clock + RedisCache.DefaultCacheTTL)]
    {
      var code, draws := GenerateShortCode();
      shortCode := code;
      ghost var rows := postgres.postgres.rows;
      var url := postgres.CreateURL(code, originalURL, dbDown);
      if url.Err? {
        return Err(url.error), shortCode;
      }
      ghost var row := Sql.Row(url.value.id, code, originalURL, url.value.createdAt, 0);
      assert postgres.postgres.rows == rows + [row];
      ghost var expiresAt := redis.redis.clock + RedisCache.DefaultCacheTTL;
      Sql.CacheDerivedInsert(rows, redis.redis.entries, row, expiresAt);
      Sql.CacheDerivedInsert(rows, postgres.redis.entries, row, expiresAt);
      var err := redis.Set(code, originalURL, cacheDown);
      if err.Some? {
        return Err(err.value), shortCode;
      }
      return Ok(URL(url.value.shortCode, url.value.originalURL, url.value.createdAt)), shortCode;
    }

    method GetOriginalURL(shortCode: string, cacheDown: bool, f: PostgresRepository.ReadFaults)
      returns (r: Result<string>)
      requires Valid()
      modifies postgres.redis
      ensures Valid() && postgres.redis.clock == old(postgres.redis.clock)
      ensures PostgresRepository.Answer(r, postgres.redis.entries) ==
        Resolution(postgres.postgres.rows, old(redis.redis.entries), old(redis.redis.clock),
                   old(postgres.redis.entries), old(postgres.redis.clock), shortCode, cacheDown, f)
    {
      ghost var front, frontNow := redis.redis.entries, redis.redis.clock;
      ResolutionSound(postgres.postgres.rows, front, frontNow,
                      postgres.redis.entries, postgres.redis.clock, shortCode, cacheDown, f);
      var val, err := redis.Get(shortCode, cacheDown);
      if err.None? {
        return Ok(val);
      }
      r := postgres.GetURLByShortCode(shortCode, f);
      // an error is logged and returned as it is
    }

    method GetAllURLS(f: PostgresRepository.ListFaults) returns (r: Result<seq<URL>>)
      ensures var listed := PostgresRepository.Listing(postgres.postgres.rows, f);
        && (listed.Err? ==> r == Err(listed.error))
        && (listed.Ok? ==> r.Ok? && |r.value| == |listed.value|)
        && (listed.Ok? ==> forall i :: 0 <= i < |r.value| ==> r.value[i] == Project(listed.value[i]))
    {
      var urls := postgres.GetAllURLS(f);
      if urls.Err? {
        return Err(urls.error);
      }
      var res: seq<URL> := [];
      for i := 0 to |urls.value|
        invariant |res| == i
        invariant forall j :: 0 <= j < i ==> res[j] == Project(urls.value[j])
      {
        res := res + [URL(urls.value[i].shortCode, urls.value[i].originalURL, urls.value[i].createdAt)];
      }
      return Ok(res);
    }
  }

  /** A client of the service: shorten a URL, then resolve the code it got. */
  method ShortenAndResolve(s: URLService, originalURL: string, dbDown: bool, setDown: bool,
                           getDown: bool, f: PostgresRepository.ReadFaults)
    returns (created: Result<URL>, resolved: Result<string>)
    requires s.Valid()
    modifies s.postgres.postgres, s.redis.redis, s.postgres.redis
    ensures s.Valid()
    ensures created.Ok? ==> created.value.originalURL == originalURL && ValidCode(created.value.shortCode)
    ensures created.Ok? && (!getDown || !f.dbDown) ==> resolved == Ok(originalURL)
  {
    ghost var rows, front, frontNow := s.postgres.postgres.rows, s.redis.redis.entries, s.redis.redis.clock;
    ghost var code;
    created, code := s.ShortenURL(originalURL, dbDown, setDown);
    if created.Err? {
      return created, Err(NotFound);
    }
    ghost var row := s.postgres.postgres.rows[|rows|];
    if !getDown || !f.dbDown {
      ShortenThenResolve(rows, front, frontNow, s.postgres.redis.entries, s.postgres.redis.clock, row, 0, getDown, f);
    }
    resolved := s.GetOriginalURL(created.value.shortCode, getDown, f);
  }
}
