/** What the uninterrupted crawl of a share achieves: everything reachable, breadth first, each page once. */
module CrawlTheorems {
  import opened Basics
  import opened Iteration
  import opened Snapshots
  import opened CrawlRun
  import opened CrawlInvariant

  /** Some page of some reachable directory lists a directory or a media file with this id. */
  ghost predicate Listed(r: Remote, id: string) {
    exists cid, offset: nat, node ::
      Reachable(r, cid) && r.PageOffset(cid, offset) && node in r.Nodes(cid, offset)
          && (node.isDir || r.media(node.ext)) && node.id == id
  }

  lemma EndGood(r: Remote)
    ensures Good(r, End(r))
  {
    RunGood(r, RunLength(r));
  }

  /** The crawl visits exactly the directories reachable from the root. */
  lemma VisitedIsReachable(r: Remote, c: Cid)
    ensures c in End(r).visited <==> Reachable(r, c)
  {
    EndGood(r);
    if Reachable(r, c) {
      var n: nat :| Within(r, c, n);
      NearerVisited(r, End(r), n + 1, c, n);
    }
  }

  /** At the end a page counts as fetched exactly when it is a page of a reachable directory. */
  lemma EndFetched(r: Remote, cid: Cid, offset: nat)
    ensures Fetched(r, End(r), cid, offset) <==> Reachable(r, cid) && r.PageOffset(cid, offset)
  {
    VisitedIsReachable(r, cid);
  }

  /** The stored file ids are exactly those listed on the pages of the reachable directories. */
  lemma RowsAreListed(r: Remote, id: string)
    ensures id in End(r).rows <==> Listed(r, id)
  {
    EndGood(r);
    var end := End(r);
    if id in end.rows {
      var row := end.rows[id];
      assert RowListed(r, end, row);
      var offset: nat :| Fetched(r, end, row.parent, offset) && row.node in r.Nodes(row.parent, offset);
      EndFetched(r, row.parent, offset);
    }
    if Listed(r, id) {
      var cid, offset: nat, node :|
        Reachable(r, cid) && r.PageOffset(cid, offset) && node in r.Nodes(cid, offset)
            && (node.isDir || r.media(node.ext)) && node.id == id;
      EndFetched(r, cid, offset);
    }
  }

  /**
   A stored row repeats an entry of its parent's listing, and its depth is one more than the
   parent's distance from the root.
   */
  lemma RowDepthIsDistance(r: Remote, id: string)
    requires id in End(r).rows
    ensures var row := End(r).rows[id];
            && row.node.id == id
            && row.depth > 0
            && Distance(r, row.parent, row.depth - 1)
            && exists offset: nat :: r.PageOffset(row.parent, offset) && row.node in r.Nodes(row.parent, offset)
  {
    EndGood(r);
    assert RowListed(r, End(r), End(r).rows[id]);
  }

  // ----- the pages fetched -----

  ghost predicate InLog(log: seq<Fetch>, cid: Cid, offset: nat) {
    exists i :: 0 <= i < |log| && log[i].cid == cid && log[i].offset == offset
  }

  /** The log holds the processed pages, each once, each at its directory's distance. */
  ghost predicate LogGood(r: Remote, st: State, log: seq<Fetch>) {
    && (forall i :: 0 <= i < |log| ==> Distance(r, log[i].cid, log[i].depth))
    && (forall cid, offset: nat :: InLog(log, cid, offset) <==> Fetched(r, st, cid, offset))
    && (forall i, j :: 0 <= i < j < |log| ==> log[i].cid != log[j].cid || log[i].offset != log[j].offset)
  }

  lemma {:induction false} RunLogGood(r: Remote, n: nat)
    ensures LogGood(r, After(r, Start(), n), Log(r, Start(), n))
  {
    if n == 0 {
      StartFetchedNothing(r);
    } else {
      RunLogGood(r, n - 1);
      assert ActiveOk(r, After(r, Start(), n - 1)) by {
        RunGood(r, n - 1);
      }
      NextLogGood(r, After(r, Start(), n - 1), Log(r, Start(), n - 1));
    }
  }

  lemma NextLogGood(r: Remote, st: State, log: seq<Fetch>)
    requires ActiveOk(r, st) && LogGood(r, st, log)
    ensures LogGood(r, Next(r, st), log + FetchOf(st))
  {
    if st.active.At? {
      VisitLogGood(r, st, log);
    } else {
      assert log + FetchOf(st) == log;
      if st.queue != [] {
        PopKeepsFetched(r, st);
      }
    }
  }

  lemma StartFetchedNothing(r: Remote)
    ensures forall c, o: nat :: !Fetched(r, Start(), c, o)
  {
  }

  lemma VisitLogGood(r: Remote, st: State, log: seq<Fetch>)
    requires st.active.At? && ActiveOk(r, st) && LogGood(r, st, log)
    ensures LogGood(r, Visit(r, st), log + FetchOf(st))
  {
    var At(task, offset) := st.active;
    var log' := log + FetchOf(st);
    VisitFetches(r, st);
    assert !Fetched(r, st, task.cid, offset);
    forall i | 0 <= i < |log|
      ensures log[i].cid != task.cid || log[i].offset != offset
    {
      if log[i].cid == task.cid && log[i].offset == offset {
        assert InLog(log, task.cid, offset);
      }
    }
    forall c, o: nat
      ensures InLog(log', c, o) <==> InLog(log, c, o) || (c == task.cid && o == offset)
    {
      if InLog(log, c, o) {
        var i :| 0 <= i < |log| && log[i].cid == c && log[i].offset == o;
        assert log'[i] == log[i];
      }
      assert log'[|log|] == Fetch(task.cid, task.depth, offset);
    }
  }

  /**
   An uninterrupted crawl fetches every page of every reachable directory exactly once, at the
   directory's distance from the root.
   */
  lemma EachPageOnce(r: Remote, n: nat)
    requires Done(After(r, Start(), n))
    ensures var log := Log(r, Start(), n);
            && (forall cid, offset: nat :: InLog(log, cid, offset) <==> Reachable(r, cid) && r.PageOffset(cid, offset))
            && (forall i, j :: 0 <= i < j < |log| ==> log[i].cid != log[j].cid || log[i].offset != log[j].offset)
            && (forall i :: 0 <= i < |log| ==> Distance(r, log[i].cid, log[i].depth))
  {
    RunLogGood(r, n);
    DoneUnique(r, Start(), n, RunLength(r));
    forall cid, offset: nat
      ensures Fetched(r, End(r), cid, offset) <==> Reachable(r, cid) && r.PageOffset(cid, offset)
    {
      EndFetched(r, cid, offset);
    }
  }
}
