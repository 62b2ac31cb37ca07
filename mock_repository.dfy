/** internal/repository/mocks/repository.go: an in-memory store behind the same
    three operations as the durable store adapter, keyed by short code. It never
    fails, does not enforce uniqueness and stamps records with the caller's clock. */
module MockRepository {
  import opened Common
  import PostgresRepository

  type URL = PostgresRepository.URL

  /** Storing a code adds one to the number of codes unless the code is already
      there: the id CreateURL hands out is that number, so an overwrite hands out
      the current size again. */
  lemma SizeAfterStore(urls: map<string, string>, shortCode: string, originalURL: string)
    ensures |urls[shortCode := originalURL]| == if shortCode in urls then |urls| else |urls| + 1
  {
    var after := urls[shortCode := originalURL];
    if shortCode in urls {
      assert after.Keys == urls.Keys;
    } else {
      assert after.Keys == urls.Keys + {shortCode};
    }
  }

  class MockRepo {
    var urls: map<string, string>

    constructor ()
      ensures urls == map[]
    {
      urls := map[];
    }

    /** Stores the pair, overwriting a code already present, and never fails.
        `now` stands for time.Now(). */
    method CreateURL(shortCode: string, originalURL: string, now: Time) returns (r: Result<URL>)
      modifies this
      ensures urls == old(urls)[shortCode := originalURL]
      ensures r == Ok(PostgresRepository.URL(|urls|, shortCode, originalURL, now))
      ensures r.value.id == if shortCode in old(urls) then |old(urls)| else |old(urls)| + 1
    {
      SizeAfterStore(urls, shortCode, originalURL);
      urls := urls[shortCode := originalURL];
      var id := |urls|;
      return Ok(PostgresRepository.URL(id, shortCode, originalURL, now));
    }

    method GetURLByShortCode(shortCode: string) returns (r: Result<string>)
      ensures shortCode in urls ==> r == Ok(urls[shortCode])
      ensures shortCode !in urls ==> r == Err(NotFound)
    {
      if shortCode !in urls {
        return Err(NotFound);
      }
      return Ok(urls[shortCode]);
    }

    /** One record per stored code, numbered 1..n in an order the map chooses,
        all stamped with `now`; it never fails and an empty store lists as empty. */
    method GetAllURLS(now: Time) returns (r: Result<seq<URL>>)
      ensures r.Ok? && |r.value| == |urls|
      ensures forall i :: 0 <= i < |r.value| ==> r.value[i].id == i + 1 && r.value[i].createdAt == now
      ensures forall i :: 0 <= i < |r.value| ==>
        r.value[i].shortCode in urls && urls[r.value[i].shortCode] == r.value[i].originalURL
      ensures forall i, j :: 0 <= i < j < |r.value| ==> r.value[i].shortCode != r.value[j].shortCode
      ensures forall c :: c in urls ==> exists i :: 0 <= i < |r.value| && r.value[i].shortCode == c
    {
      var list: seq<URL> := [];
      var id := 1;
      var left := urls.Keys;
      while left != {}
        invariant left <= urls.Keys
        invariant id == |list| + 1
        invariant |list| + |left| == |urls|
        invariant forall i :: 0 <= i < |list| ==> list[i].id == i + 1 && list[i].createdAt == now
        invariant forall i :: 0 <= i < |list| ==>
          list[i].shortCode in urls && urls[list[i].shortCode] == list[i].originalURL && list[i].shortCode !in left
        invariant forall i, j :: 0 <= i < j < |list| ==> list[i].shortCode != list[j].shortCode
        invariant forall c :: c in urls && c !in left ==> exists i :: 0 <= i < |list| && list[i].shortCode == c
        decreases |left|
      {
        var shortCode :| shortCode in left;
        ghost var before := list;
        list := list + [PostgresRepository.URL(id, shortCode, urls[shortCode], now)];
        assert list[|before|].shortCode == shortCode;
        assert forall i :: 0 <= i < |before| ==> list[i] == before[i];
        id := id + 1;
        left := left - {shortCode};
      }
      return Ok(list);
    }
  }

  /** A stored code reads back as the URL stored last. */
  method CreateThenGet(m: MockRepo, shortCode: string, first: string, last: string, now: Time)
    returns (got: Result<string>)
    modifies m
    ensures got == Ok(last)
    ensures m.urls == old(m.urls)[shortCode := last]
  {
    var created := m.CreateURL(shortCode, first, now);
    created := m.CreateURL(shortCode, last, now);
    got := m.GetURLByShortCode(shortCode);
  }
}
