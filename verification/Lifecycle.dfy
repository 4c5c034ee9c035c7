/**
 One share's life: what each store method of store/sqlite.go and store/share_status.go makes of a
 row, and which rows are due.
 */
module Lifecycle {
  import opened Shares
  import opened Backoff

  /** An empty-data error at this failure, or later, shelves the share. */
  const GIVE_UP_FAILURES := 4

  /** Ten years, in seconds. */
  const SHELF_SECONDS := 10 * 365 * 24 * 60 * 60

  // ----- the updates -----

  function NewRow(id: nat, code: string, receive: string, title: string, fileSize: int): Share {
    Share(id, code, receive, title, fileSize, Active, 0, 0, 0, 0, "", NoGroup)
  }

  function Registered(s: Share): Share {
    s.(status := Active, lastCrawledAt := 0, failureCount := 0, retryAfter := 0, version := 0)
  }

  function Crawled(s: Share, at: int): Share {
    s.(status := Completed, lastCrawledAt := at, failureCount := 0, retryAfter := 0, version := s.version + 1)
  }

  function SetBack(s: Share, count: nat, at: int): Share {
    s.(status := if count >= 3 then Quarantine else Stale, failureCount := count, retryAfter := at + Delay(count))
  }

  function Died(s: Share): Share {
    s.(status := Dead, retryAfter := 0)
  }

  function Shelved(s: Share, at: int): Share {
    s.(status := Quarantine, retryAfter := at + SHELF_SECONDS)
  }

  function Reactivated(s: Share): Share {
    s.(status := Active, duplicateOf := "", failureCount := 0, retryAfter := 0)
  }

  function Described(s: Share, title: string, fileSize: int): Share {
    s.(title := title, fileSize := fileSize)
  }

  // ----- what every row satisfies -----

  /** A status says how often the share failed since it last had none. */
  predicate LifeOk(s: Share) {
    match s.status
    case Active => s.failureCount == 0 && s.retryAfter == 0
    case Completed => s.failureCount == 0 && s.retryAfter == 0
    case DuplicateShare => s.failureCount == 0 && s.retryAfter == 0
    case Stale => 1 <= s.failureCount <= 2
    case Quarantine => s.failureCount >= 3
    case Dead => s.retryAfter == 0
  }

  lemma UpdatesKeepLife(s: Share, at: int, canonical: string)
    ensures LifeOk(Registered(s)) && LifeOk(Reactivated(s)) && LifeOk(Crawled(s, at))
            && LifeOk(MarkedDuplicate(s, canonical))
    ensures LifeOk(Died(s))
    ensures forall count: nat :: count > 0 ==> LifeOk(SetBack(s, count, at))
    ensures LifeOk(Shelved(s, at)) <==> s.failureCount >= 3
  {
  }

  // ----- ListSharesForCrawl -----

  predicate Due(s: Share, now: int) {
    Crawlable(s) && s.retryAfter <= now
  }

  /** The order of a listing: least recently crawled first, then oldest. */
  predicate NotAfter(a: Share, b: Share) {
    !Older(b, a)
  }

  predicate InOrder(rows: seq<Share>) {
    forall i, j :: 0 <= i < j < |rows| ==> NotAfter(rows[i], rows[j])
  }

  function Insert(rows: seq<Share>, s: Share): seq<Share> {
    if rows == [] || !NotAfter(rows[0], s) then [s] + rows else [rows[0]] + Insert(rows[1..], s)
  }

  /**
   `SELECT … WHERE status IN (ACTIVE, STALE, QUARANTINE) AND retry_after_unix <= now ORDER BY
   last_crawled_at, id`.
   */
  function Listing(rows: seq<Share>, now: int): seq<Share> {
    if rows == [] then []
    else
      var last := rows[|rows| - 1];
      var others := Listing(rows[..|rows| - 1], now);
      if Due(last, now) then Insert(others, last) else others
  }

  function DueRows(rows: seq<Share>, now: int): seq<Share> {
    if rows == [] then []
    else
      var last := rows[|rows| - 1];
      DueRows(rows[..|rows| - 1], now) + (if Due(last, now) then [last] else [])
  }

  lemma {:induction false} InsertHolds(rows: seq<Share>, s: Share)
    ensures multiset(Insert(rows, s)) == multiset(rows) + multiset{s}
  {
    if rows != [] && NotAfter(rows[0], s) {
      assert rows == [rows[0]] + rows[1..];
      InsertHolds(rows[1..], s);
    }
  }

  lemma InsertMembers(rows: seq<Share>, s: Share, t: Share)
    ensures t in Insert(rows, s) <==> t == s || t in rows
  {
    InsertHolds(rows, s);
    assert t in Insert(rows, s) <==> t in multiset(Insert(rows, s));
  }

  lemma {:induction false} InsertInOrder(rows: seq<Share>, s: Share)
    requires InOrder(rows)
    ensures InOrder(Insert(rows, s))
  {
    if rows != [] && NotAfter(rows[0], s) {
      var rest := Insert(rows[1..], s);
      InsertInOrder(rows[1..], s);
      forall j | 0 <= j < |rest| ensures NotAfter(rows[0], rest[j]) {
        assert rest[j] in rest;
        InsertMembers(rows[1..], s, rest[j]);
      }
    }
  }

  /** A listing holds each due row once, in order. */
  lemma {:induction false} ListingExact(rows: seq<Share>, now: int)
    ensures multiset(Listing(rows, now)) == multiset(DueRows(rows, now))
    ensures InOrder(Listing(rows, now))
  {
    if rows != [] {
      var n := |rows| - 1;
      ListingExact(rows[..n], now);
      InsertHolds(Listing(rows[..n], now), rows[n]);
      InsertInOrder(Listing(rows[..n], now), rows[n]);
    }
  }

  lemma {:induction false} ListedIffDue(rows: seq<Share>, now: int, s: Share)
    ensures s in Listing(rows, now) <==> s in rows && Due(s, now)
  {
    if rows != [] {
      var n := |rows| - 1;
      ListedIffDue(rows[..n], now, s);
      InsertMembers(Listing(rows[..n], now), rows[n], s);
      assert rows == rows[..n] + [rows[n]];
    }
  }

  /** No two rows of a list have the same code. */
  lemma {:induction false} InsertUnique(rows: seq<Share>, s: Share)
    requires UniqueCodes(rows) && forall t :: t in rows ==> t.code != s.code
    ensures UniqueCodes(Insert(rows, s))
  {
    if rows != [] && NotAfter(rows[0], s) {
      var rest := Insert(rows[1..], s);
      InsertUnique(rows[1..], s);
      forall j | 0 <= j < |rest| ensures rows[0].code != rest[j].code {
        InsertMembers(rows[1..], s, rest[j]);
      }
    }
  }

  lemma {:induction false} ListingUnique(rows: seq<Share>, now: int)
    requires UniqueCodes(rows)
    ensures UniqueCodes(Listing(rows, now))
  {
    if rows != [] {
      var n := |rows| - 1;
      ListingUnique(rows[..n], now);
      forall t | t in Listing(rows[..n], now) ensures t.code != rows[n].code {
        ListedIffDue(rows[..n], now, t);
      }
      if Due(rows[n], now) {
        InsertUnique(Listing(rows[..n], now), rows[n]);
      }
    }
  }

  // ----- a listing, told by the columns -----

  /**
   `listing` holds every ACTIVE, STALE or QUARANTINE row whose retry time has come, as often as the
   table, and no other row; least recently crawled first, and by id among rows crawled at the same time.
   */
  ghost predicate IsListing(listing: seq<Share>, rows: seq<Share>, now: int) {
    && (forall s: Share ::
          multiset(listing)[s]
          == if (s.status.Active? || s.status.Stale? || s.status.Quarantine?) && s.retryAfter <= now
             then multiset(rows)[s] else 0)
    && (forall i, j :: 0 <= i < j < |listing| ==>
          listing[i].lastCrawledAt < listing[j].lastCrawledAt
          || (listing[i].lastCrawledAt == listing[j].lastCrawledAt && listing[i].id <= listing[j].id))
  }

  lemma {:induction false} DueCount(rows: seq<Share>, now: int, s: Share)
    ensures multiset(DueRows(rows, now))[s] == if Due(s, now) then multiset(rows)[s] else 0
  {
    if rows != [] {
      var n := |rows| - 1;
      DueCount(rows[..n], now, s);
      assert rows == rows[..n] + [rows[n]];
    }
  }

  lemma ListingFields(rows: seq<Share>, now: int)
    ensures IsListing(Listing(rows, now), rows, now)
  {
    ListingExact(rows, now);
    forall s: Share
      ensures multiset(Listing(rows, now))[s] == if Due(s, now) then multiset(rows)[s] else 0
    {
      DueCount(rows, now, s);
    }
  }
}
