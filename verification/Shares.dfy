/** The `share` table, as rows in id order. */
module Shares {
  datatype Status = Active | Stale | Quarantine | Completed | Dead | DuplicateShare

  /** `share.group_id`: NULL, or a row of `share_group`. */
  datatype GroupRef = NoGroup | Group(id: nat)

  datatype Share = Share(
    id: nat,
    code: string,
    receiveCode: string,
    title: string,
    fileSize: int,
    status: Status,
    lastCrawledAt: int,
    failureCount: nat,
    retryAfter: int,
    version: int,
    duplicateOf: string,
    group: GroupRef)

  /** Marks, renames and deletes match on the share code alone, so one row per code is what they are meant for. */
  ghost predicate UniqueCodes(rows: seq<Share>) {
    forall i, j :: 0 <= i < j < |rows| ==> rows[i].code != rows[j].code
  }

  predicate HasCode(rows: seq<Share>, code: string) {
    exists i :: 0 <= i < |rows| && rows[i].code == code
  }

  /** A share the scheduler and the deduplication consider at all. */
  predicate Crawlable(s: Share) {
    s.status.Active? || s.status.Stale? || s.status.Quarantine?
  }

  /** Oldest first, by last crawl and then by id. */
  predicate Older(a: Share, b: Share) {
    a.lastCrawledAt < b.lastCrawledAt || (a.lastCrawledAt == b.lastCrawledAt && a.id < b.id)
  }

  /** `MarkShareDuplicate`, on one row. */
  function MarkedDuplicate(s: Share, canonical: string): Share {
    s.(status := DuplicateShare, duplicateOf := canonical, failureCount := 0, retryAfter := 0)
  }

  /** `UPDATE share SET … WHERE share_code = code`. */
  function UpdateWhere(rows: seq<Share>, code: string, change: Share -> Share): (updated: seq<Share>)
    ensures |updated| == |rows|
  {
    seq(|rows|, i requires 0 <= i < |rows| => if rows[i].code == code then change(rows[i]) else rows[i])
  }
}
