# URL shortener core, modelled in Dafny

The service turns a long URL into a six-symbol short code and resolves the code
back to the URL. Records live in a Postgres `urls` table. A Redis cache sits in
front of the table and keeps entries for 24 hours. The model covers these parts:

- the code generator and the `URLService` orchestration (`ShortenURL`, `GetOriginalURL`, `GetAllURLS`);
- the two durable store adapters (`postgres.go` and the older `repository.go`), both with cache-aside reads;
- the Redis adapter (`redis.go`);
- the in-memory mock store.

Outside effects are modelled as follows:

- The two backends are classes. `Kv.RedisServer` holds key→(value, expiry) plus a clock. `Sql.UrlsTable` holds rows in insertion order, the SERIAL counter and the clock that `CURRENT_TIMESTAMP` reads.
- Whether a backend call reaches its server is a boolean input (`down`, `ReadFaults`, `ListFaults`).
- `rand.Intn` is a nondeterministic choice.
- `time.Now()` is a parameter.

Files:

- `common.dfy`: results and the Go error values.
- `kv.dfy`: the Redis server.
- `sql.dfy`: the urls table, its queries and the cache-consistency invariant.
- `redis_repository.dfy`, `postgres_repository.dfy`, `legacy_repository.dfy`, `mock_repository.dfy`: the adapters.
- `service.dfy`: the generator and the service.

The central invariant is `Sql.CacheDerived`: every key either cache holds maps to
the table's URL for that code. Every operation preserves it, and the service's
`Valid()` includes it for both caches. The caches may be one Redis server or two.

Where the design description and the code disagree, the model follows the code:

- A code collision is not retried. The insert fails on the UNIQUE constraint and `ShortenURL` returns that error.
- A failed cache write after a successful insert fails `ShortenURL`. The durable record is still there.
- A cache miss is an error from `RedisRepository.Get`, not a distinct "miss" value, so the service falls through to the store on any cache error.

## Model

| member | source | states |
|---|---|---|
| Service.GenerateShortCode | internal/service/service.go:111-120 | the code is six charset symbols, spelt by the recorded draws, one symbol per draw |
| Service.EveryCodeReachable | internal/service/service.go:111-120 | every six-symbol charset code is the result of some sequence of draws |
| Service.URLService.constructor | internal/service/service.go:39-45 | the service is built over the stores it is handed and starts consistent when they are |
| Service.URLService.ShortenURL | internal/service/service.go:47-71 | one generate, one create, then the cache write. A failed create returns its error and caches nothing. A failed cache write returns its error while the row stays. Success returns code, URL and created_at and caches the code for 24 hours. Cache consistency is kept |
| Service.URLService.GetOriginalURL | internal/service/service.go:73-89 | answers as `Resolution` does: a cache hit returns the cached value; any cache error falls through to the store's read-through, whose answer and error are returned as they are; cache consistency is kept |
| Service.URLService.GetAllURLS | internal/service/service.go:91-109 | a store error is returned as it is; otherwise every listed record, in order, without its id |
| Service.ResolutionCases | internal/service/service.go:77-88 | a cache hit answers with the cached value whatever the store holds; any cache error gives exactly the store's answer |
| Service.ResolutionSound | internal/service/service.go:73-89 | with both caches derived from the table: an answer is the table's URL; when the query runs, an answer comes exactly for codes the table has, and ErrNotFound otherwise; the caches stay derived |
| Service.ShortenThenResolve | internal/service/service.go:47-89 | after a successful shorten, resolving the code gives the submitted URL while the cache entry is live or the table answers |
| Service.ShortenAndResolve | internal/service/service.go:47-89 | a client that shortens and then resolves gets its own URL back unless both the cache read and the query fail |
| RedisCache.Fetch | internal/repository/redis.go:36-49 | Get succeeds exactly when the server is reachable and holds a live key; an error comes with an empty value; a miss and a transport failure are both errors, neither of them redis.Nil, and only the transport failure wraps the client error |
| RedisCache.SetThenGet | internal/repository/redis.go:11-49 | a Set is visible to Get for exactly defaultCacheTTL (24 hours) and is a miss from then on |
| RedisCache.RedisRepository.Set | internal/repository/redis.go:26-34 | success stores the pair with a 24-hour expiry; a failure wraps the client error with the key and changes nothing |
| RedisCache.RedisRepository.Get | internal/repository/redis.go:36-49 | returns what `Fetch` gives for the server's current entries and clock |
| Kv.RedisServer.Get | internal/repository/redis.go:40 | GET answers with the value of a live key, redis.Nil for an absent or expired key, and a transport error when unreachable |
| Kv.RedisServer.Set | internal/repository/redis.go:30 | SET overwrites the key and restarts its expiry; a transport error changes nothing |
| Sql.Find | internal/repository/postgres.go:74-77 | `WHERE short_code = $1` finds nothing exactly when no row has the code, and a found row is in the table and has the code |
| Sql.FindUnique | internal/test/testhelper/config_helper.go:81-87 | under the UNIQUE constraint the query finds exactly the row that carries the code |
| Sql.DescendingIsListing | internal/repository/postgres.go:95-96 | `ORDER BY created_at DESC` yields every row once (a permutation) with created_at non-increasing |
| Sql.UrlsTable.InsertReturning | internal/repository/postgres.go:44-47 | a fresh code appends a row with the next SERIAL id, the server's timestamp and a zero counter; a taken code is a unique violation that still uses up an id; an unreachable server changes nothing |
| Sql.UrlsTable.SelectByCode | internal/repository/postgres.go:74-77 | sql.ErrNoRows for a missing code, the row for a present one, a connection error when unreachable |
| Sql.UrlsTable.SelectNewestFirst | internal/repository/postgres.go:95-98 | the query yields the rows newest first or fails |
| Sql.UrlsTable.UpdateIncrement | internal/repository/repository.go:137-138 | the matching row's counter goes up by one; matching no row is not an error |
| Sql.CacheDerivedInsert | internal/service/service.go:53-62 | inserting a fresh code and caching it keeps every cache derived from the table |
| Sql.CacheDerivedRefresh | internal/repository/postgres.go:86-89 | writing the table's own URL back into the cache keeps it derived |
| Sql.CacheDerivedBump | internal/repository/repository.go:136-144 | counting an access keeps the cache derived |
| PostgresRepository.URLRepository.CreateURL | internal/repository/postgres.go:37-58 | success exactly when the server is reachable and the code is fresh. Success returns the new row's id, code, URL and created_at. Failure wraps the driver error as "repository: CreateURL" and leaves the rows as they were |
| PostgresRepository.URLRepository.GetURLByShortCode | internal/repository/postgres.go:60-92 | answers and leaves the cache as the read-through `ReadThrough` describes |
| PostgresRepository.URLRepository.GetAllURLS | internal/repository/postgres.go:94-121 | returns `Listing`: a query error wrapped, a scan error as it is, a broken cursor as an error (rows.Err), otherwise every row newest first |
| PostgresRepository.HitBypassesTable | internal/repository/postgres.go:64-67 | a cache hit answers with the cached string and does not consult the table |
| PostgresRepository.MissIsFailure | internal/repository/postgres.go:64-71 | redis.Nil and a Redis failure lead to the same fall-through |
| PostgresRepository.FallThrough | internal/repository/postgres.go:73-91 | after a cache miss: ErrNotFound for a missing code, a wrapped query error, or the table's URL, written back for 24 hours unless the write fails, which is ignored |
| PostgresRepository.ReadThroughSound | internal/repository/postgres.go:60-92 | with a derived cache: an answer is the table's URL; when the query runs, an answer comes exactly for codes the table has; the cache stays derived |
| PostgresRepository.ListingComplete | internal/repository/postgres.go:94-121 | a listing is all or nothing: Ok exactly when the query, every scan and each of the cursor's rows.Next() calls succeed, including the last one that reports the end. It then holds every row once, newest first. A broken cursor with no earlier scan error gives its error. An empty table lists as empty unless its cursor breaks |
| PostgresRepository.Delivered | internal/repository/postgres.go:106 | a cursor never delivers more rows than the query has, and delivers fewer only when it breaks |
| PostgresRepository.FinalNextFails | internal/repository/postgres.go:106-118 | a cursor that fails on the rows.Next() after the last row, for an empty table or a one-row table, fails the listing |
| LegacyRepository.URLRepository.CreateURL | internal/repository/repository.go:68-80 | success exactly when reachable and the code is fresh; it fills in the caller's ID and CreatedAt and leaves the other fields; failure wraps the error and leaves struct and table as they were |
| LegacyRepository.URLRepository.GetURLByShortCode | internal/repository/repository.go:82-112 | answers and leaves the cache as the read-through `ReadThrough` describes |
| LegacyRepository.URLRepository.GetAllURLS | internal/repository/repository.go:114-134 | returns the as-written `Listing`, which has no rows.Err check |
| LegacyRepository.URLRepository.IncrementAccessCount | internal/repository/repository.go:136-144 | the matching row's counter is bumped; an error is wrapped as "repository: IncrementAccessCount" and changes nothing |
| LegacyRepository.ReadThroughCases | internal/repository/repository.go:82-112 | a cache hit gives a URL with only ShortCode and OriginalURL set, with no table access and no cache write; otherwise the whole row, written back for 24 hours unless the write fails (which is ignored), or ErrNotFound, or the wrapped query error, both leaving the cache alone |
| LegacyRepository.ReadThroughSound | internal/repository/repository.go:82-112 | with a derived cache a found URL carries the asked-for code and the table's URL, and the cache stays derived |
| LegacyRepository.ListingPrefix | internal/repository/repository.go:114-134 | the listing is Ok exactly when the query and every delivered scan succeed. A query error is wrapped and a scan error is returned as it is; a broken cursor is never an error. An Ok listing is the newest-first table cut off where the cursor stopped, element by element; when the cursor delivers every row it holds every row |
| LegacyRepository.BrokenCursorTruncates | internal/repository/repository.go:125-133 | two rows and a cursor broken after one: this listing reports success with one row, where postgres.go reports the error |
| LegacyRepository.IncrementOnlyMatching | internal/repository/repository.go:136-144 | the bump raises only the matching row's counter by one, keeps codes unique and changes nothing for an unknown code |
| MockRepository.SizeAfterStore | internal/repository/mocks/repository.go:20-22 | storing grows the map by one unless the code is already there |
| MockRepository.MockRepo.constructor | internal/repository/mocks/repository.go:13-17 | a new mock store is empty |
| MockRepository.MockRepo.CreateURL | internal/repository/mocks/repository.go:19-31 | the pair is stored (last write wins), it never fails, and the id is the map size after the store |
| MockRepository.MockRepo.GetURLByShortCode | internal/repository/mocks/repository.go:33-41 | the stored URL for a present code, ErrNotFound otherwise |
| MockRepository.MockRepo.GetAllURLS | internal/repository/mocks/repository.go:43-59 | never fails; exactly one record per stored code with that code's URL, ids 1..n in listing order, all stamped with the same instant |
| MockRepository.CreateThenGet | internal/repository/mocks/repository.go:19-41 | a code reads back as the URL stored last |

## Left out

- Logging (`slog`, `log.Printf`): it has no effect on results.
- `context.WithTimeout` and the 5-second deadlines. A `down` call never reaches its server, so a failed write changes nothing. A write that the server applies before the deadline expires, while the client still gets the timeout error, is not modelled: after it the row or key would stay although the call failed.
- Concurrency. Operations run one at a time, while net/http serves requests concurrently. In particular `Sql.Chronological`, which lets reverse insertion order stand for `ORDER BY created_at DESC`, holds only for inserts that run one after another.
- Column widths. `short_code VARCHAR(10)`, the SERIAL id and the INTEGER counter (32-bit in Postgres) are unbounded strings and `nat`s in the model; overflow of the id sequence or the counter is not modelled.
- Metrics, the HTTP handlers and routes, configuration and start-up: they are outside the core.
- Wall-clock time. `Time` is abstract seconds, and the 24-hour TTL is 86400 of them.
- Interchangeable stores. The service is wired to `postgres.go`'s `URLRepository` and `redis.go`'s `RedisRepository` only. The model has no interfaces, so the mock store is a separate class with the same three operations, not a swappable implementation.
- `redis.go`'s methods take no context, while the service's `RepositoryRedis` interface passes one. The model drops the context.
- The test schema names the counter `click_count`, while `repository.go` uses `access_count`. The model follows `repository.go`.
- `NewRepository` (connection strings, pings) in `repository.go`: environment and network set-up, outside the model.
- Service.GenerateShortCode: states which codes the generator can reach, not that draws are uniform. Probability is outside Dafny's logic.
- Sql.DescendingIsListing: rows with equal created_at come back in reverse insertion order. This is one of the orders Postgres may choose.
- The ordering of the mock's map iteration. Its listing order is any order of the keys.

## Findings

| source | as written | input that shows it | evidently intended | confidence | as-written member | corrected member |
|---|---|---|---|---|---|---|
| internal/repository/repository.go:125-133 | `GetAllURLS` loops on `rows.Next()` and never checks `rows.Err()`, so a cursor that breaks mid-listing ends the loop as if the table were exhausted and the partial list is returned with a nil error | a table of two rows whose cursor breaks after the first row: the result is a successful one-row listing | report the cursor's error, as `postgres.go:115-118` does | not executed | LegacyRepository.BrokenCursorTruncates | PostgresRepository.ListingComplete |
