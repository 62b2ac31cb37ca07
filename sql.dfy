/** The Postgres `urls` table: one row per short code (short_code is UNIQUE),
    a SERIAL id, a created_at stamped with CURRENT_TIMESTAMP and an access
    counter defaulting to zero. Rows are kept in insertion order; whether a
    statement reaches the server is an input (`down`). */
module Sql {
  import opened Common
  import Kv

  datatype Row = Row(id: nat, shortCode: string, originalURL: string, createdAt: Time, accessCount: nat)

  /** The UNIQUE constraint on short_code. */
  ghost predicate UniqueCodes(rows: seq<Row>) {
    forall i, j :: 0 <= i < j < |rows| ==> rows[i].shortCode != rows[j].shortCode
  }

  /** Later inserts get larger ids and no earlier timestamps. */
  ghost predicate Chronological(rows: seq<Row>) {
    forall i, j :: 0 <= i < j < |rows| ==> rows[i].id < rows[j].id && rows[i].createdAt <= rows[j].createdAt
  }

  /** ORDER BY created_at DESC. */
  ghost predicate NewestFirst(rows: seq<Row>) {
    forall i, j :: 0 <= i < j < |rows| ==> rows[i].createdAt >= rows[j].createdAt
  }

  /** The row a `WHERE short_code = code` query finds. */
  function Find(rows: seq<Row>, code: string): (r: Option<Row>)
    ensures r.None? <==> forall i :: 0 <= i < |rows| ==> rows[i].shortCode != code
    ensures r.Some? ==> r.value in rows && r.value.shortCode == code
  {
    if rows == [] then None
    else if rows[0].shortCode == code then Some(rows[0])
    else Find(rows[1..], code)
  }

  /** With unique codes, the query finds exactly the row that carries the code. */
  lemma {:induction false} FindUnique(rows: seq<Row>, i: nat)
    requires UniqueCodes(rows) && i < |rows|
    ensures Find(rows, rows[i].shortCode) == Some(rows[i])
  {
    if i > 0 {
      FindUnique(rows[1..], i - 1);
    }
  }

  /** Appending a row does not change what the query finds for codes already present. */
  lemma {:induction false} FindAppend(rows: seq<Row>, row: Row, code: string)
    ensures Find(rows + [row], code) ==
      if Find(rows, code).Some? then Find(rows, code)
      else if row.shortCode == code then Some(row) else None
  {
    if rows != [] {
      assert (rows + [row])[1..] == rows[1..] + [row];
      FindAppend(rows[1..], row, code);
    }
  }

  /** The result of ORDER BY created_at DESC over rows kept in insertion order:
      the reverse order, which is one of the orders Postgres may return on ties. */
  function Descending(rows: seq<Row>): seq<Row> {
    seq(|rows|, i requires 0 <= i < |rows| => rows[|rows| - 1 - i])
  }

  lemma DescendingIsListing(rows: seq<Row>)
    requires Chronological(rows)
    ensures |Descending(rows)| == |rows| && NewestFirst(Descending(rows))
    ensures forall r :: r in Descending(rows) <==> r in rows
    ensures multiset(Descending(rows)) == multiset(rows)
  {
    var d := Descending(rows);
    forall r | r in rows ensures r in d {
      var k :| 0 <= k < |rows| && rows[k] == r;
      assert d[|rows| - 1 - k] == r;
    }
    DescendingPermutes(rows);
  }

  lemma {:induction false} DescendingPermutes(rows: seq<Row>)
    ensures multiset(Descending(rows)) == multiset(rows)
  {
    if rows != [] {
      var n := |rows|;
      var front := rows[..n - 1];
      DescendingPermutes(front);
      assert Descending(rows) == [rows[n - 1]] + Descending(front);
      assert rows == front + [rows[n - 1]];
    }
  }

  /** UPDATE urls SET access_count = access_count + 1 WHERE short_code = code. */
  function Bump(rows: seq<Row>, code: string): (r: seq<Row>)
    ensures |r| == |rows|
  {
    seq(|rows|, i requires 0 <= i < |rows| =>
      if rows[i].shortCode == code then rows[i].(accessCount := rows[i].accessCount + 1) else rows[i])
  }

  /** The bump keeps every row's code, so it keeps the codes unique. */
  lemma BumpKeepsCodes(rows: seq<Row>, code: string)
    ensures forall i :: 0 <= i < |rows| ==>
      Bump(rows, code)[i].shortCode == rows[i].shortCode &&
      Bump(rows, code)[i] == if rows[i].shortCode == code
                            then rows[i].(accessCount := rows[i].accessCount + 1)
                            else rows[i]
    ensures UniqueCodes(rows) ==> UniqueCodes(Bump(rows, code))
  {
  }

  /** The query over bumped rows finds the bumped version of the row it found before. */
  lemma {:induction false} FindBump(rows: seq<Row>, code: string, key: string)
    ensures Find(Bump(rows, code), key) ==
      match Find(rows, key)
      case None => None
      case Some(r) => Some(if r.shortCode == code then r.(accessCount := r.accessCount + 1) else r)
  {
    if rows != [] {
      assert Bump(rows, code)[1..] == Bump(rows[1..], code);
      FindBump(rows[1..], code, key);
    }
  }

  /** The cache never holds a mapping the table does not have: every key the
      cache knows, expired or not, maps to the table's URL for that code. */
  ghost predicate CacheDerived(rows: seq<Row>, entries: map<string, Kv.Entry>) {
    forall k :: k in entries ==> Find(rows, k).Some? && Find(rows, k).value.originalURL == entries[k].value
  }

  /** Inserting a fresh code keeps the cache derived from the table. */
  lemma CacheDerivedInsert(rows: seq<Row>, entries: map<string, Kv.Entry>, row: Row, expiresAt: Time)
    requires CacheDerived(rows, entries) && Find(rows, row.shortCode).None?
    ensures CacheDerived(rows + [row], entries)
    ensures CacheDerived(rows + [row], entries[row.shortCode := Kv.Entry(row.originalURL, expiresAt)])
  {
    var after := rows + [row];
    forall k | k in entries ensures Find(after, k).Some? && Find(after, k).value.originalURL == entries[k].value {
      FindAppend(rows, row, k);
    }
    FindAppend(rows, row, row.shortCode);
    var updated := entries[row.shortCode := Kv.Entry(row.originalURL, expiresAt)];
    forall k | k in updated ensures Find(after, k).Some? && Find(after, k).value.originalURL == updated[k].value {
      if k != row.shortCode {
        assert k in entries;
      }
    }
  }

  /** Writing the table's own URL for a code into the cache keeps the cache derived. */
  lemma CacheDerivedRefresh(rows: seq<Row>, entries: map<string, Kv.Entry>, code: string, expiresAt: Time)
    requires CacheDerived(rows, entries) && Find(rows, code).Some?
    ensures CacheDerived(rows, entries[code := Kv.Entry(Find(rows, code).value.originalURL, expiresAt)])
  {
  }

  /** Counting an access keeps the cache derived from the table. */
  lemma CacheDerivedBump(rows: seq<Row>, entries: map<string, Kv.Entry>, code: string)
    requires CacheDerived(rows, entries)
    ensures CacheDerived(Bump(rows, code), entries)
  {
    forall k | k in entries ensures Find(Bump(rows, code), k).Some? && Find(Bump(rows, code), k).value.originalURL == entries[k].value {
      FindBump(rows, code, k);
    }
  }

  class UrlsTable {
    var rows: seq<Row>
    var nextId: nat    // the next value of the SERIAL sequence
    var clock: Time    // what CURRENT_TIMESTAMP reads

    ghost predicate Valid()
      reads this
    {
      && UniqueCodes(rows)
      && Chronological(rows)
      && forall i :: 0 <= i < |rows| ==> rows[i].id < nextId && rows[i].createdAt <= clock
    }

    constructor ()
      ensures Valid() && rows == [] && nextId == 1 && clock == 0
    {
      rows, nextId, clock := [], 1, 0;
    }

    /** INSERT INTO urls (short_code, original_url) VALUES (code, url) RETURNING id, created_at.
        A rejected insert has still drawn a value from the id sequence. */
    method InsertReturning(code: string, url: string, down: bool) returns (r: Result<Row>)
      requires Valid()
      modifies this
      ensures Valid() && clock == old(clock)
      ensures down ==> r == Err(Db(ConnFailure)) && rows == old(rows) && nextId == old(nextId)
      ensures !down && Find(old(rows), code).Some? ==>
        r == Err(Db(UniqueViolation)) && rows == old(rows) && nextId == old(nextId) + 1
      ensures !down && Find(old(rows), code).None? ==>
        && r == Ok(Row(old(nextId), code, url, clock, 0))
        && rows == old(rows) + [r.value] && nextId == old(nextId) + 1
    {
      if down {
        r := Err(Db(ConnFailure));
        return;
      }
      var id := nextId;
      nextId := nextId + 1;
      if Find(rows, code).Some? {
        r := Err(Db(UniqueViolation));
      } else {
        var row := Row(id, code, url, clock, 0);
        rows := rows + [row];
        r := Ok(row);
      }
    }

    /** SELECT ... FROM urls WHERE short_code = code. */
    method SelectByCode(code: string, down: bool) returns (r: Result<Row>)
      ensures down ==> r == Err(Db(ConnFailure))
      ensures !down && Find(rows, code).None? ==> r == Err(Db(NoRows))
      ensures !down && Find(rows, code).Some? ==> r == Ok(Find(rows, code).value)
    {
      if down {
        r := Err(Db(ConnFailure));
      } else {
        var found := Find(rows, code);
        r := if found.Some? then Ok(found.value) else Err(Db(NoRows));
      }
    }

    /** SELECT ... FROM urls ORDER BY created_at DESC: the rows a fresh cursor yields. */
    method SelectNewestFirst(down: bool) returns (r: Result<seq<Row>>)
      ensures r == if down then Err(Db(ConnFailure)) else Ok(Descending(rows))
    {
      if down {
        r := Err(Db(ConnFailure));
      } else {
        r := Ok(Descending(rows));
      }
    }

    /** UPDATE urls SET access_count = access_count + 1 WHERE short_code = code.
        Matching no row is not an error. */
    method UpdateIncrement(code: string, down: bool) returns (err: Option<Error>)
      requires Valid()
      modifies this
      ensures Valid() && nextId == old(nextId) && clock == old(clock)
      ensures down ==> err == Some(Db(ConnFailure)) && rows == old(rows)
      ensures !down ==> err == None && rows == Bump(old(rows), code)
    {
      if down {
        err := Some(Db(ConnFailure));
      } else {
        rows := Bump(rows, code);
        err := None;
      }
    }
  }
}
