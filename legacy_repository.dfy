/** internal/repository/repository.go: the older variant of the durable store
    adapter. Its URL carries the access counter, CreateURL fills in the caller's
    struct, and a lookup returns a whole URL, cache-aside. */
module LegacyRepository {
  import opened Common
  import Kv
  import Sql
  import PostgresRepository

  datatype URL = URL(id: nat, shortCode: string, originalURL: string, createdAt: Time, accessCount: nat)

  /** Scanning id, short_code, original_url, created_at, access_count into a URL. */
  function FromRow(row: Sql.Row): URL {
    URL(row.id, row.shortCode, row.originalURL, row.createdAt, row.accessCount)
  }

  /** A `*URL` owned by the caller. */
  class URLRef {
    var url: URL

    constructor (url: URL)
      ensures this.url == url
    {
      this.url := url;
    }
  }

  /** A lookup's answer and the cache it leaves behind. */
  datatype Fetched = Fetched(result: Result<URL>, cache: map<string, Kv.Entry>)

  /** GetURLByShortCode for table `rows`, cache `entries` at instant `now`. A cache
      hit can only rebuild the code and the URL; every other field is Go's zero value. */
  function ReadThrough(rows: seq<Sql.Row>, entries: map<string, Kv.Entry>, now: Time,
                       shortCode: string, f: PostgresRepository.ReadFaults): Fetched
  {
    var cached := if f.cacheGetDown then Err(Redis(Unreachable)) else Kv.Lookup(entries, now, shortCode);
    if cached.Ok? then Fetched(Ok(URL(0, shortCode, cached.value, 0, 0)), entries)
    else if f.dbDown then Fetched(Err(Wrapped("repository: GetURLByShortCode", Db(ConnFailure))), entries)
    else match Sql.Find(rows, shortCode)
      case None => Fetched(Err(NotFound), entries)
      case Some(row) =>
        Fetched(Ok(FromRow(row)),
                if f.cacheSetDown then entries
                else entries[shortCode := Kv.Entry(row.originalURL, now + Kv.TwentyFourHours)])
  }

  /** Cache hit: only ShortCode and OriginalURL are set, the table is not
      consulted and the cache is not written. On a miss or a cache failure, the
      answer is the table's whole row, written back to the cache unless that
      write fails, or ErrNotFound, or the wrapped query error. */
  lemma ReadThroughCases(rows: seq<Sql.Row>, entries: map<string, Kv.Entry>, now: Time,
                         shortCode: string, f: PostgresRepository.ReadFaults)
    ensures var got := ReadThrough(rows, entries, now, shortCode, f);
      && (!f.cacheGetDown && Kv.Lookup(entries, now, shortCode).Ok? ==>
            got == Fetched(Ok(URL(0, shortCode, entries[shortCode].value, 0, 0)), entries))
      && (f.cacheGetDown || Kv.Lookup(entries, now, shortCode).Err? ==>
            && (f.dbDown ==> got.result.Err? && Is(got.result.error, Db(ConnFailure)) && got.cache == entries)
            && (!f.dbDown && Sql.Find(rows, shortCode).None? ==> got == Fetched(Err(NotFound), entries))
            && (!f.dbDown && Sql.Find(rows, shortCode).Some? ==>
                  var row := Sql.Find(rows, shortCode).value;
                  && got.result == Ok(FromRow(row))
                  // written back for 24 hours; a failed write is only logged
                  && got.cache == if f.cacheSetDown then entries
                                  else entries[shortCode := Kv.Entry(row.originalURL, now + Kv.TwentyFourHours)]))
  {
  }

  /** While the cache is derived from the table, a lookup names the code asked
      for and the table's URL for it, and leaves the cache derived. */
  lemma ReadThroughSound(rows: seq<Sql.Row>, entries: map<string, Kv.Entry>, now: Time,
                         shortCode: string, f: PostgresRepository.ReadFaults)
    requires Sql.CacheDerived(rows, entries)
    ensures var got := ReadThrough(rows, entries, now, shortCode, f);
      && Sql.CacheDerived(rows, got.cache)
      && (got.result.Ok? ==>
            && Sql.Find(rows, shortCode).Some?
            && got.result.value.shortCode == shortCode
            && got.result.value.originalURL == Sql.Find(rows, shortCode).value.originalURL)
  {
    if Sql.Find(rows, shortCode).Some? {
      Sql.CacheDerivedRefresh(rows, entries, shortCode, now + Kv.TwentyFourHours);
    }
  }

  /** GetAllURLS as written: there is no rows.Err() check, so a cursor that breaks
      early ends the loop as if the table had no more rows. */
  function Listing(rows: seq<Sql.Row>, f: PostgresRepository.ListFaults): Result<seq<URL>> {
    var n := PostgresRepository.Delivered(|rows|, f);
    if f.queryDown then Err(Wrapped("repository: GetAllURLS", Db(ConnFailure)))
    else if f.scanFailAt.Some? && f.scanFailAt.value < n then Err(Db(ScanFailure))
    else Ok(seq(n, i requires 0 <= i < n => FromRow(Sql.Descending(rows)[i])))
  }

  /** A listing fails only on the query or on a scan, never on a broken cursor.
      It is the newest-first table cut off where the cursor stopped: every row
      when the cursor delivers them all, and each listed URL a row of the table. */
  lemma ListingPrefix(rows: seq<Sql.Row>, f: PostgresRepository.ListFaults)
    requires Sql.Chronological(rows)
    ensures var l := Listing(rows, f);
      && (l.Ok? <==> !f.queryDown &&
                     !(f.scanFailAt.Some? && f.scanFailAt.value < PostgresRepository.Delivered(|rows|, f)))
      && (f.queryDown ==> l == Err(Wrapped("repository: GetAllURLS", Db(ConnFailure))))
      && (!f.queryDown && l.Err? ==> l == Err(Db(ScanFailure)))
      && (l.Ok? ==> |l.value| == PostgresRepository.Delivered(|rows|, f))
      && (l.Ok? ==> forall i :: 0 <= i < |l.value| ==> l.value[i] == FromRow(Sql.Descending(rows)[i]))
      && (l.Ok? ==> forall i, j :: 0 <= i < j < |l.value| ==> l.value[i].createdAt >= l.value[j].createdAt)
      && (l.Ok? && PostgresRepository.Delivered(|rows|, f) == |rows| ==>
            forall row :: row in rows ==> FromRow(row) in l.value)
      && (l.Ok? ==> forall u :: u in l.value ==> exists row :: row in rows && u == FromRow(row))
  {
    Sql.DescendingIsListing(rows);
    var l := Listing(rows, f);
    if l.Ok? {
      var d := Sql.Descending(rows);
      if PostgresRepository.Delivered(|rows|, f) == |rows| {
        forall row | row in rows ensures FromRow(row) in l.value {
          var k :| 0 <= k < |d| && d[k] == row;
          assert l.value[k] == FromRow(row);
        }
      }
      forall u | u in l.value ensures exists row :: row in rows && u == FromRow(row) {
        var k :| 0 <= k < |l.value| && l.value[k] == u;
        assert d[k] in rows;
      }
    }
  }

  /** The input that shows it: two rows and a cursor that breaks after the first
      give a one-row listing that reports success, where postgres.go's GetAllURLS
      reports the error. */
  lemma BrokenCursorTruncates()
    ensures var rows := [Sql.Row(1, "aaaaaa", "https://a.example", 0, 0), Sql.Row(2, "bbbbbb", "https://b.example", 1, 0)];
            var f := PostgresRepository.ListFaults(false, None, Some(1));
      && Listing(rows, f) == Ok([FromRow(rows[1])])
      && PostgresRepository.Listing(rows, f) == Err(Db(ConnFailure))
  {
    var rows := [Sql.Row(1, "aaaaaa", "https://a.example", 0, 0), Sql.Row(2, "bbbbbb", "https://b.example", 1, 0)];
    var f := PostgresRepository.ListFaults(false, None, Some(1));
    assert PostgresRepository.Delivered(|rows|, f) == 1;
    var l := Listing(rows, f);
    assert l.Ok? && |l.value| == 1 && l.value[0] == FromRow(Sql.Descending(rows)[0]);
    assert l.value == [FromRow(rows[1])];
  }

  /** IncrementAccessCount raises the counter of the row carrying the code by one
      and changes nothing else; a code the table lacks changes nothing. */
  lemma IncrementOnlyMatching(rows: seq<Sql.Row>, shortCode: string)
    requires Sql.UniqueCodes(rows)
    ensures Sql.UniqueCodes(Sql.Bump(rows, shortCode))
    ensures forall i :: 0 <= i < |rows| && rows[i].shortCode != shortCode ==> Sql.Bump(rows, shortCode)[i] == rows[i]
    ensures Sql.Find(rows, shortCode).Some? ==>
      Sql.Find(Sql.Bump(rows, shortCode), shortCode) ==
        Some(Sql.Find(rows, shortCode).value.(accessCount := Sql.Find(rows, shortCode).value.accessCount + 1))
    ensures Sql.Find(rows, shortCode).None? ==> Sql.Bump(rows, shortCode) == rows
  {
    Sql.BumpKeepsCodes(rows, shortCode);
    Sql.FindBump(rows, shortCode, shortCode);
    if Sql.Find(rows, shortCode).None? {
      assert forall i :: 0 <= i < |rows| ==> Sql.Bump(rows, shortCode)[i] == rows[i];
    }
  }

  class URLRepository {
    const db: Sql.UrlsTable
    const redis: Kv.RedisServer

    constructor (db: Sql.UrlsTable, redis: Kv.RedisServer)
      ensures this.db == db && this.redis == redis
    {
      this.db := db;
      this.redis := redis;
    }

    /** Inserts url's code and URL; on success writes the row's id and created_at
        into the caller's struct and leaves its other fields as they were. */
    method CreateURL(url: URLRef, down: bool) returns (err: Option<Error>)
      requires db.Valid()
      modifies url, db
      ensures db.Valid() && db.clock == old(db.clock)
      ensures err.None? <==> !down && Sql.Find(old(db.rows), old(url.url).shortCode).None?
      ensures err.None? ==> url.url == old(url.url).(id := old(db.nextId), createdAt := db.clock)
      ensures err.None? ==>
        db.rows == old(db.rows) + [Sql.Row(url.url.id, url.url.shortCode, url.url.originalURL, url.url.createdAt, 0)]
      ensures err.Some? ==> url.url == old(url.url) && db.rows == old(db.rows)
      ensures err.Some? ==>
        err.value == Wrapped("repository: CreateURL", Db(if down then ConnFailure else UniqueViolation))
    {
      var inserted := db.InsertReturning(url.url.shortCode, url.url.originalURL, down);
      if inserted.Err? {
        return Some(Wrapped("repository: CreateURL", inserted.error));
      }
      url.url := url.url.(id := inserted.value.id, createdAt := inserted.value.createdAt);
      return None;
    }

    method GetURLByShortCode(shortCode: string, f: PostgresRepository.ReadFaults) returns (r: Result<URL>)
      modifies redis
      ensures redis.clock == old(redis.clock)
      ensures Fetched(r, redis.entries) == ReadThrough(db.rows, old(redis.entries), old(redis.clock), shortCode, f)
    {
      var cached := redis.Get(shortCode, f.cacheGetDown);
      if cached.Ok? {
        return Ok(URL(0, shortCode, cached.value, 0, 0));
      }
      var found := db.SelectByCode(shortCode, f.dbDown);
      if found.Err? {
        if found.error == Db(NoRows) {
          return Err(NotFound);
        }
        return Err(Wrapped("repository: GetURLByShortCode", found.error));
      }
      // a failed write-back is logged and otherwise ignored
      var setErr := redis.Set(shortCode, found.value.originalURL, Kv.TwentyFourHours, f.cacheSetDown);
      return Ok(FromRow(found.value));
    }

    method GetAllURLS(f: PostgresRepository.ListFaults) returns (r: Result<seq<URL>>)
      ensures r == Listing(db.rows, f)
    {
      var query := db.SelectNewestFirst(f.queryDown);
      if query.Err? {
        return Err(Wrapped("repository: GetAllURLS", query.error));
      }
      var cursor := query.value;
      var urls: seq<URL> := [];
      var i := 0;
      while i < |cursor| && f.brokenAt != Some(i)
        invariant cursor == Sql.Descending(db.rows)
        invariant 0 <= i <= PostgresRepository.Delivered(|cursor|, f)
        invariant f.scanFailAt.Some? ==> i <= f.scanFailAt.value
        invariant urls == seq(i, j requires 0 <= j < i => FromRow(cursor[j]))
      {
        if f.scanFailAt == Some(i) {
          return Err(Db(ScanFailure));
        }
        urls := urls + [FromRow(cursor[i])];
        i := i + 1;
      }
      return Ok(urls);
    }

    method IncrementAccessCount(shortCode: string, down: bool) returns (err: Option<Error>)
      requires db.Valid()
      modifies db
      ensures db.Valid() && db.nextId == old(db.nextId) && db.clock == old(db.clock)
      ensures down ==> err == Some(Wrapped("repository: IncrementAccessCount", Db(ConnFailure))) && db.rows == old(db.rows)
      ensures !down ==> err == None && db.rows == Sql.Bump(old(db.rows), shortCode)
    {
      var e := db.UpdateIncrement(shortCode, down);
      if e.Some? {
        return Some(Wrapped("repository: IncrementAccessCount", e.value));
      }
      return None;
    }
  }
}
