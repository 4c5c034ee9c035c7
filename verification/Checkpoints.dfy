/**
 The durable half of the crawl: what a call of CrawlShare finds in the database,
 what it resumes from, and what it can leave behind.
 */
module Checkpoints {
  import opened Basics
  import opened Snapshots
  import opened CrawlRun

  /** A row of `crawl_checkpoint`, without its share code and update time. */
  datatype Checkpoint = Checkpoint(cid: Cid, nextOffset: nat, activeDepth: nat, queue: seq<Task>, visited: set<Cid>)

  /** One share's rows in the two tables the crawler writes. */
  datatype Durable = Durable(checkpoint: Option<Checkpoint>, rows: Rows)

  /** A share no crawl has touched. */
  const UNTOUCHED := Durable(None, map[])

  /** The cursor a checkpoint resumes: none for an empty directory id, nor for a directory already visited. */
  function ResumedCursor(cp: Checkpoint): Cursor {
    if cp.cid != "" && cp.cid !in cp.visited then At(Task(cp.cid, cp.activeDepth), cp.nextOffset) else Idle
  }

  /** The state a call starts from; an exhausted checkpoint queues the root again. */
  function Resume(d: Durable): State {
    match d.checkpoint
    case None => State(Idle, [ROOT_TASK], {}, d.rows)
    case Some(cp) =>
      var active := ResumedCursor(cp);
      State(active, if active.Idle? && cp.queue == [] then [ROOT_TASK] else cp.queue, cp.visited, d.rows)
  }

  /** Saved before a page is fetched. */
  function PrePage(st: State): Checkpoint
    requires st.active.At?
  {
    var At(task, offset) := st.active;
    Checkpoint(task.cid, offset, task.depth, st.queue, st.visited)
  }

  /** Saved once a page's rows are stored. */
  function PostPage(r: Remote, st: State): Checkpoint
    requires st.active.At?
  {
    var At(task, offset) := st.active;
    var st' := Visit(r, st);
    Checkpoint(task.cid, offset + r.pageSize, task.depth, st'.queue, st'.visited)
  }

  /** Saved when the queue is drained. */
  function FinalCheckpoint(visited: set<Cid>): Checkpoint {
    Checkpoint(ROOT_CID, 0, 0, [], visited)
  }

  /** What the database holds after a crawl that ends in `st`. */
  function Finished(st: State): Durable {
    Durable(Some(FinalCheckpoint(st.visited)), st.rows)
  }

  /**
   The database while the page under the cursor of `st` is in hand; `fetched` is that page's fetch
   once it succeeded.
   */
  ghost predicate AroundPage(r: Remote, st: State, d: Durable, fetched: seq<Fetch>)
    requires st.active.At?
  {
    || (d == Durable(Some(PrePage(st)), st.rows) && (fetched == [] || fetched == FetchOf(st)))
    || (d == Durable(Some(PrePage(st)), Visit(r, st).rows) && fetched == FetchOf(st))
    || (d == Durable(Some(PostPage(r, st)), Visit(r, st).rows) && fetched == FetchOf(st))
  }

  /** A call that started from `d0` stopped around the page of its step `n`, leaving `d1` and having fetched `log`. */
  ghost predicate StoppedAt(r: Remote, d0: Durable, d1: Durable, log: seq<Fetch>, n: nat) {
    var st := After(r, Resume(d0), n);
    && st.active.At?
    && (|| (log == Log(r, Resume(d0), n) && AroundPage(r, st, d1, []))
        || (log == Log(r, Resume(d0), n) + FetchOf(st) && AroundPage(r, st, d1, FetchOf(st))))
  }

  /** A call that started from `d0` and did not finish may have left `d1`, having fetched `log`. */
  ghost predicate Interrupted(r: Remote, d0: Durable, d1: Durable, log: seq<Fetch>) {
    (d1 == d0 && log == []) || exists n: nat :: StoppedAt(r, d0, d1, log, n)
  }

  /** A call that started from `d0` and returned without error left `d1`, having fetched `log`. */
  ghost predicate Completed(r: Remote, d0: Durable, d1: Durable, log: seq<Fetch>) {
    exists n: nat ::
      && Done(After(r, Resume(d0), n))
      && d1 == Finished(After(r, Resume(d0), n))
      && log == Log(r, Resume(d0), n)
  }
}
