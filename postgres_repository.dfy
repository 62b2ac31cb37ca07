/** internal/repository/postgres.go: the durable store adapter. Creation and
    listing go to the `urls` table; a lookup is cache-aside, reading its own Redis
    client first and writing the table's answer back with a 24-hour expiry. */
module PostgresRepository {
  import opened Common
  import Kv
  import Sql

  datatype URL = URL(id: nat, shortCode: string, originalURL: string, createdAt: Time)

  /** Scanning id, short_code, original_url, created_at into a URL. */
  function FromRow(row: Sql.Row): URL {
    URL(row.id, row.shortCode, row.originalURL, row.createdAt)
  }

  function CreateFailure(cause: Error): Error { Wrapped("repository: CreateURL", cause) }
  function LookupFailure(cause: Error): Error { Wrapped("repository: GetURLByShortCode", cause) }
  function ListFailure(cause: Error): Error { Wrapped("repository: GetAllURLS", cause) }

  /** Which of the three backend calls of a lookup fail. */
  datatype ReadFaults = ReadFaults(cacheGetDown: bool, dbDown: bool, cacheSetDown: bool)

  /** A lookup's answer and the cache it leaves behind. */
  datatype Answer = Answer(result: Result<string>, cache: map<string, Kv.Entry>)

  /** GetURLByShortCode for table `rows`, cache `entries` at instant `now`. */
  function ReadThrough(rows: seq<Sql.Row>, entries: map<string, Kv.Entry>, now: Time,
                       shortCode: string, f: ReadFaults): Answer
  {
    var cached := if f.cacheGetDown then Err(Redis(Unreachable)) else Kv.Lookup(entries, now, shortCode);
    if cached.Ok? then Answer(Ok(cached.value), entries)
    else if f.dbDown then Answer(Err(LookupFailure(Db(ConnFailure))), entries)
    else match Sql.Find(rows, shortCode)
      case None => Answer(Err(NotFound), entries)
      case Some(row) =>
        Answer(Ok(row.originalURL),
               if f.cacheSetDown then entries
               else entries[shortCode := Kv.Entry(row.originalURL, now + Kv.TwentyFourHours)])
  }

  /** A cache hit answers with the cached string whatever the table holds and
      whatever the table would do: the table is not consulted. */
  lemma HitBypassesTable(rows: seq<Sql.Row>, entries: map<string, Kv.Entry>, now: Time,
                         shortCode: string, f: ReadFaults)
    requires !f.cacheGetDown && Kv.Lookup(entries, now, shortCode).Ok?
    ensures ReadThrough(rows, entries, now, shortCode, f) == Answer(Ok(entries[shortCode].value), entries)
  {
  }

  /** On a cache miss (redis.Nil) the lookup does exactly what it does when Redis
      is down: both fall through to the table. */
  lemma MissIsFailure(rows: seq<Sql.Row>, entries: map<string, Kv.Entry>, now: Time,
                      shortCode: string, f: ReadFaults)
    requires Kv.Lookup(entries, now, shortCode).Err?
    ensures ReadThrough(rows, entries, now, shortCode, f) ==
            ReadThrough(rows, entries, now, shortCode, f.(cacheGetDown := true))
  {
  }

  /** What the fall-through does: no row gives ErrNotFound, a failing query its
      wrapped error, and in both cases the cache is not written; a found row is
      returned whether or not writing it back to the cache succeeds. */
  lemma FallThrough(rows: seq<Sql.Row>, entries: map<string, Kv.Entry>, now: Time,
                    shortCode: string, f: ReadFaults)
    requires f.cacheGetDown || Kv.Lookup(entries, now, shortCode).Err?
    ensures var got := ReadThrough(rows, entries, now, shortCode, f);
      && (f.dbDown ==> got == Answer(Err(LookupFailure(Db(ConnFailure))), entries))
      && (!f.dbDown && Sql.Find(rows, shortCode).None? ==> got == Answer(Err(NotFound), entries))
      && (!f.dbDown && Sql.Find(rows, shortCode).Some? ==>
            var url := Sql.Find(rows, shortCode).value.originalURL;
            && got.result == Ok(url)
            && got.cache == if f.cacheSetDown then entries
                            else entries[shortCode := Kv.Entry(url, now + Kv.TwentyFourHours)])
  {
  }

  /** While the cache is derived from the table, a lookup answers with the table's
      URL or not at all, answers whenever the table has the code and the query
      runs, and leaves the cache derived. */
  lemma ReadThroughSound(rows: seq<Sql.Row>, entries: map<string, Kv.Entry>, now: Time,
                         shortCode: string, f: ReadFaults)
    requires Sql.CacheDerived(rows, entries)
    ensures var got := ReadThrough(rows, entries, now, shortCode, f);
      && Sql.CacheDerived(rows, got.cache)
      && (got.result.Ok? ==>
            Sql.Find(rows, shortCode).Some? && got.result.value == Sql.Find(rows, shortCode).value.originalURL)
      && (!f.dbDown ==> (got.result.Ok? <==> Sql.Find(rows, shortCode).Some?))
      && (!f.dbDown && Sql.Find(rows, shortCode).None? ==> got.result == Err(NotFound))
  {
    if Sql.Find(rows, shortCode).Some? {
      Sql.CacheDerivedRefresh(rows, entries, shortCode, now + Kv.TwentyFourHours);
    }
  }

  /** Which of the backend events of a listing fail: the query itself, the scan
      of the row at some position, or the cursor breaking at some position: the
      rows.Next() that would deliver that row (or, at the end of the rows, report
      that there are no more) returns false and leaves the error in rows.Err(). */
  datatype ListFaults = ListFaults(queryDown: bool, scanFailAt: Option<nat>, brokenAt: Option<nat>)

  /** How many of `n` rows the cursor delivers before rows.Next() stops. */
  function Delivered(n: nat, f: ListFaults): (k: nat)
    ensures k <= n
    ensures k < n ==> Broken(n, f)
  {
    if f.brokenAt.Some? && f.brokenAt.value < n then f.brokenAt.value else n
  }

  /** The cursor over `n` rows breaks on one of its n + 1 calls to rows.Next(). */
  predicate Broken(n: nat, f: ListFaults) {
    f.brokenAt.Some? && f.brokenAt.value <= n
  }

  /** GetAllURLS for table `rows`. */
  function Listing(rows: seq<Sql.Row>, f: ListFaults): Result<seq<URL>> {
    if f.queryDown then Err(ListFailure(Db(ConnFailure)))
    else if f.scanFailAt.Some? && f.scanFailAt.value < Delivered(|rows|, f) then Err(Db(ScanFailure))
    else if Broken(|rows|, f) then Err(Db(ConnFailure))
    else Ok(seq(|rows|, i requires 0 <= i < |rows| => FromRow(Sql.Descending(rows)[i])))
  }

  /** A listing is all or nothing: it holds every row, newest first, or it is an
      error; an empty table lists as an empty sequence unless its cursor breaks. */
  lemma ListingComplete(rows: seq<Sql.Row>, f: ListFaults)
    requires Sql.Chronological(rows)
    ensures var l := Listing(rows, f);
      && (l.Ok? <==> !f.queryDown && !Broken(|rows|, f)
                     && !(f.scanFailAt.Some? && f.scanFailAt.value < |rows|))
      && (var scanFails := f.scanFailAt.Some? && f.scanFailAt.value < Delivered(|rows|, f);
          !f.queryDown && Broken(|rows|, f) && !scanFails ==> l == Err(Db(ConnFailure)))
      && (l.Ok? ==> |l.value| == |rows|)
      && (l.Ok? ==> forall i, j :: 0 <= i < j < |l.value| ==> l.value[i].createdAt >= l.value[j].createdAt)
      && (l.Ok? ==> forall row :: row in rows ==> FromRow(row) in l.value)
      && (l.Ok? ==> forall u :: u in l.value ==> exists row :: row in rows && u == FromRow(row))
      && (rows == [] && !f.queryDown && f.brokenAt != Some(0) ==> l == Ok([]))
  {
    var d := Sql.Descending(rows);
    Sql.DescendingIsListing(rows);
    var l := Listing(rows, f);
    if l.Ok? {
      forall row | row in rows ensures FromRow(row) in l.value {
        var k :| 0 <= k < |d| && d[k] == row;
        assert l.value[k] == FromRow(row);
      }
      forall u | u in l.value ensures exists row :: row in rows && u == FromRow(row) {
        var k :| 0 <= k < |l.value| && l.value[k] == u;
        assert d[k] in rows;
      }
    }
  }

  /** A cursor that fails on the rows.Next() after the last row fails the
      listing too, for an empty table and for a non-empty one. */
  lemma FinalNextFails(row: Sql.Row)
    ensures Listing([], ListFaults(false, None, Some(0))) == Err(Db(ConnFailure))
    ensures Listing([row], ListFaults(false, None, Some(1))) == Err(Db(ConnFailure))
  {
  }

  class URLRepository {
    const postgres: Sql.UrlsTable
    const redis: Kv.RedisServer

    constructor (postgres: Sql.UrlsTable, redis: Kv.RedisServer)
      ensures this.postgres == postgres && this.redis == redis
    {
      this.postgres := postgres;
      this.redis := redis;
    }

    method CreateURL(shortCode: string, originalURL: string, down: bool) returns (r: Result<URL>)
      requires postgres.Valid()
      modifies postgres
      ensures postgres.Valid() && postgres.clock == old(postgres.clock)
      ensures postgres.nextId == old(postgres.nextId) + (if down then 0 else 1)
      ensures r.Ok? <==> !down && Sql.Find(old(postgres.rows), shortCode).None?
      ensures r.Ok? ==> r.value == URL(old(postgres.nextId), shortCode, originalURL, postgres.clock)
      ensures r.Ok? ==> postgres.rows == old(postgres.rows) + [Sql.Row(r.value.id, shortCode, originalURL, r.value.createdAt, 0)]
      // a code already in the table hits the UNIQUE constraint and fails like any other error
      ensures r.Err? ==> postgres.rows == old(postgres.rows)
      ensures r.Err? ==> r.error == CreateFailure(Db(if down then ConnFailure else UniqueViolation))
    {
      var inserted := postgres.InsertReturning(shortCode, originalURL, down);
      if inserted.Err? {
        return Err(CreateFailure(inserted.error));
      }
      return Ok(URL(inserted.value.id, shortCode, originalURL, inserted.value.createdAt));
    }

    method GetURLByShortCode(shortCode: string, f: ReadFaults) returns (r: Result<string>)
      modifies redis
      ensures redis.clock == old(redis.clock)
      ensures Answer(r, redis.entries) == ReadThrough(postgres.rows, old(redis.entries), old(redis.clock), shortCode, f)
    {
      var cached := redis.Get(shortCode, f.cacheGetDown);
      if cached.Ok? {
        return Ok(cached.value);
      }
      // every cache error falls through; one that is not redis.Nil is logged
      var found := postgres.SelectByCode(shortCode, f.dbDown);
      if found.Err? {
        if found.error == Db(NoRows) {
          return Err(NotFound);
        }
        return Err(LookupFailure(found.error));
      }
      // a failed write-back is logged and otherwise ignored
      var setErr := redis.Set(shortCode, found.value.originalURL, Kv.TwentyFourHours, f.cacheSetDown);
      return Ok(found.value.originalURL);
    }

    method GetAllURLS(f: ListFaults) returns (r: Result<seq<URL>>)
      ensures r == Listing(postgres.rows, f)
    {
      var query := postgres.SelectNewestFirst(f.queryDown);
      if query.Err? {
        return Err(ListFailure(query.error));
      }
      var cursor := query.value;
      var urls: seq<URL> := [];
      var i := 0;
      while i < |cursor| && f.brokenAt != Some(i)
        invariant cursor == Sql.Descending(postgres.rows)
        invariant 0 <= i <= Delivered(|cursor|, f)
        invariant f.scanFailAt.Some? ==> i <= f.scanFailAt.value
        invariant urls == seq(i, j requires 0 <= j < i => FromRow(cursor[j]))
      {
        if f.scanFailAt == Some(i) {
          return Err(Db(ScanFailure));
        }
        urls := urls + [FromRow(cursor[i])];
        i := i + 1;
      }
      if f.brokenAt == Some(i) {
        // rows.Err(): the cursor broke, before the last row or after it
        return Err(Db(ConnFailure));
      }
      return Ok(urls);
    }
  }
}
