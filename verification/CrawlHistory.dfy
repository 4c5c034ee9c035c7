/**
 Any number of interrupted calls followed by one that returns without error. The
 result is that of a single uninterrupted crawl, at the price of at most one page
 fetched again per interruption.
 */
module CrawlHistory {
  import opened Basics
  import opened Iteration
  import opened Snapshots
  import opened CrawlRun
  import opened CrawlInvariant
  import opened CrawlTheorems
  import opened Checkpoints

  /** Pages fetched in the first `n` steps of the uninterrupted run. */
  function Pages(r: Remote, n: nat): nat {
    |Log(r, Start(), n)|
  }

  /** The rows stored are those of `st`, or already include the page under its cursor. */
  ghost predicate RowsAt(r: Remote, st: State, rows: Rows) {
    rows == st.rows || (st.active.At? && rows == Visit(r, st).rows)
  }

  /**
   Resuming from `d` goes on as the uninterrupted run does from its step `n`; the rows stored do not
   matter to that.
   */
  ghost predicate SteersAt(r: Remote, d: Durable, n: nat) {
    var here := After(r, Start(), n);
    match Resume(d)
    case State(active, queue, visited, _) =>
      active == here.active && visited == here.visited && (queue == here.queue || (Done(here) && queue == [ROOT_TASK]))
  }

  /** Resuming from `d` continues the uninterrupted run at its step `n`, with the rows it has there. */
  ghost predicate OnRun(r: Remote, d: Durable, n: nat) {
    SteersAt(r, d, n) && RowsAt(r, After(r, Start(), n), d.rows)
  }

  /** No directory the crawl can reach has an empty id. */
  ghost predicate IdsNonempty(r: Remote) {
    !Reachable(r, "")
  }

  lemma UntouchedOnRun(r: Remote)
    ensures OnRun(r, UNTOUCHED, 0)
  {
  }

  /** Replaying the page under the cursor changes nothing. */
  lemma ReplayIdempotent(r: Remote, st: State, rows: Rows)
    requires st.active.At? && RowsAt(r, st, rows)
    ensures Visit(r, st.(rows := rows)) == Visit(r, st)
  {
    var At(task, offset) := st.active;
    var page := PageRows(r, r.Nodes(task.cid, offset), task.cid, task.depth + 1);
    assert (st.rows + page) + page == st.rows + page;
  }

  lemma DoneVisitsRoot(r: Remote, n: nat)
    requires Done(After(r, Start(), n))
    ensures ROOT_CID in After(r, Start(), n).visited
  {
    RunGood(r, n);
    assert Covered(After(r, Start(), n), ROOT_CID, 0);
  }

  /** The first step of a resumed call joins the uninterrupted run. */
  lemma FirstStepJoins(r: Remote, d: Durable, n: nat)
    requires OnRun(r, d, n)
    ensures Next(r, Resume(d)) == After(r, Start(), if Done(After(r, Start(), n)) then n else n + 1)
  {
    var here := After(r, Start(), n);
    if here.active.At? {
      assert Resume(d) == here.(rows := d.rows);
      ReplayIdempotent(r, here, d.rows);
    } else if Done(here) {
      DoneVisitsRoot(r, n);
    } else {
      assert Resume(d) == here;
    }
  }

  /** Two states whose first steps agree run alike. */
  lemma {:induction false} JoinedRun(r: Remote, a: State, b: State, i: nat)
    requires Next(r, a) == Next(r, b) && FetchOf(a) == FetchOf(b)
    ensures i > 0 ==> After(r, a, i) == After(r, b, i)
    ensures Log(r, a, i) == Log(r, b, i)
  {
    if i > 0 {
      JoinedRun(r, a, b, i - 1);
      AfterNext(r, a, i - 1);
      AfterNext(r, b, i - 1);
    }
  }

  /** A resumed call follows the uninterrupted run step by step. */
  lemma ResumedRun(r: Remote, d: Durable, n: nat, i: nat)
    requires OnRun(r, d, n) && !Done(After(r, Start(), n))
    ensures i > 0 ==> After(r, Resume(d), i) == After(r, Start(), n + i)
    ensures Log(r, Start(), n + i) == Log(r, Start(), n) + Log(r, Resume(d), i)
  {
    var here := After(r, Start(), n);
    assert Next(r, Resume(d)) == Next(r, here) by {
      FirstStepJoins(r, d, n);
      AfterNext(r, Start(), n);
    }
    JoinedRun(r, Resume(d), here, i);
    AfterAfter(r, Start(), n, i);
    OutputsSum(Stepper(r), FetchOf, Start(), n, i);
  }

  lemma AfterAfter(r: Remote, st: State, m: nat, n: nat)
    ensures After(r, After(r, st, m), n) == After(r, st, m + n)
  {
    IterateSum(Stepper(r), st, m, n);
  }

  /** A call resumed from the end skips the root and is done. */
  lemma {:induction false} ResumedEnd(r: Remote, d: Durable, n: nat, i: nat)
    requires OnRun(r, d, n) && Done(After(r, Start(), n))
    ensures i > 0 ==> After(r, Resume(d), i) == After(r, Start(), n)
    ensures Log(r, Resume(d), i) == []
    ensures After(r, Resume(d), i).active.Idle?
  {
    if i > 0 {
      ResumedEnd(r, d, n, i - 1);
      AfterNext(r, Resume(d), i - 1);
      FirstStepJoins(r, d, n);
    }
  }

  /** The active directory of the run is reachable, so it has an id to save. */
  lemma ActiveReachable(r: Remote, n: nat)
    requires After(r, Start(), n).active.At?
    ensures Reachable(r, After(r, Start(), n).active.task.cid)
    ensures Fresh(After(r, Start(), n))
  {
    RunGood(r, n);
  }

  /** A checkpoint saved around a page of the run resumes the run at that page or just past it. */
  lemma AroundPageSteers(r: Remote, m: nat, st: State, d: Durable, fetched: seq<Fetch>) returns (m': nat)
    requires IdsNonempty(r)
    requires var here := After(r, Start(), m); here.active.At? && st == here.(rows := st.rows)
    requires AroundPage(r, st, d, fetched)
    ensures SteersAt(r, d, m')
    ensures (m' == m && d.rows == st.rows)
            || (m <= m' <= m + 1 && d.rows == Visit(r, st).rows && fetched == FetchOf(st))
  {
    ActiveReachable(r, m);
    AfterNext(r, Start(), m);
    m' := if d.checkpoint == Some(PrePage(st)) then m else m + 1;
  }

  lemma AroundPageOnRun(r: Remote, m: nat, st: State, d: Durable, fetched: seq<Fetch>) returns (m': nat)
    requires IdsNonempty(r)
    requires var here := After(r, Start(), m);
             here.active.At? && RowsAt(r, here, st.rows) && st == here.(rows := st.rows)
    requires AroundPage(r, st, d, fetched)
    ensures OnRun(r, d, m') && m <= m' <= m + 1 && (m' == m + 1 ==> fetched == FetchOf(st))
  {
    var here := After(r, Start(), m);
    ReplayIdempotent(r, here, st.rows);
    AfterNext(r, Start(), m);
    m' := AroundPageSteers(r, m, st, d, fetched);
  }

  /**
   An interrupted call leaves the run where it was or further on, having fetched at most one page
   more than it advanced.
   */
  lemma InterruptedOnRun(r: Remote, d: Durable, d': Durable, log: seq<Fetch>, n: nat) returns (n': nat)
    requires IdsNonempty(r) && OnRun(r, d, n) && Interrupted(r, d, d', log)
    ensures OnRun(r, d', n') && n <= n'
    ensures Pages(r, n') <= Pages(r, n) + |log| <= Pages(r, n') + 1
  {
    if d' == d && log == [] {
      return n;
    }
    var i: nat :| StoppedAt(r, d, d', log, i);
    if Done(After(r, Start(), n)) {
      ResumedEnd(r, d, n, i);
      assert false;
    } else {
      n' := StoppedOnRun(r, d, d', log, n, i);
    }
  }

  lemma StoppedOnRun(r: Remote, d: Durable, d': Durable, log: seq<Fetch>, n: nat, i: nat) returns (n': nat)
    requires IdsNonempty(r) && OnRun(r, d, n) && !Done(After(r, Start(), n)) && StoppedAt(r, d, d', log, i)
    ensures OnRun(r, d', n') && n <= n'
    ensures Pages(r, n') <= Pages(r, n) + |log| <= Pages(r, n') + 1
  {
    var st, m := After(r, Resume(d), i), n + i;
    var fetched := if log == Log(r, Resume(d), i) && AroundPage(r, st, d', []) then [] else FetchOf(st);
    assert |log| == |Log(r, Resume(d), i)| + |fetched|;
    n' := StoppedPageOnRun(r, d, d', n, i, fetched);
    PagesAdvance(r, m, n');
    assert Pages(r, m) == Pages(r, n) + |Log(r, Resume(d), i)| by {
      ResumedPage(r, d, n, i);
    }
  }

  lemma StoppedPageOnRun(r: Remote, d: Durable, d': Durable, n: nat, i: nat, fetched: seq<Fetch>) returns (n': nat)
    requires IdsNonempty(r) && OnRun(r, d, n) && !Done(After(r, Start(), n)) && After(r, Resume(d), i).active.At?
    requires AroundPage(r, After(r, Resume(d), i), d', fetched)
    ensures OnRun(r, d', n') && n + i <= n' <= n + i + |fetched| <= n + i + 1
    ensures After(r, Start(), n + i).active.At?
  {
    ResumedPage(r, d, n, i);
    n' := AroundPageOnRun(r, n + i, After(r, Resume(d), i), d', fetched);
  }

  lemma PagesAdvance(r: Remote, m: nat, n: nat)
    requires m <= n <= m + 1 && After(r, Start(), m).active.At?
    ensures Pages(r, n) == Pages(r, m) + (n - m)
  {
    AfterNext(r, Start(), m);
  }

  lemma ResumedPage(r: Remote, d: Durable, n: nat, i: nat)
    requires OnRun(r, d, n) && !Done(After(r, Start(), n)) && After(r, Resume(d), i).active.At?
    ensures var st, here := After(r, Resume(d), i), After(r, Start(), n + i);
            here.active.At? && RowsAt(r, here, st.rows) && st == here.(rows := st.rows)
    ensures Pages(r, n + i) == Pages(r, n) + |Log(r, Resume(d), i)|
  {
    ResumedRun(r, d, n, i);
  }

  /** A call that returns without error leaves exactly the end of the run. */
  lemma CompletedAtEnd(r: Remote, d: Durable, d': Durable, log: seq<Fetch>, n: nat)
    requires OnRun(r, d, n) && Completed(r, d, d', log)
    ensures d' == Finished(End(r))
    ensures OnRun(r, d', RunLength(r))
    ensures Pages(r, n) + |log| == Pages(r, RunLength(r))
  {
    var i: nat :| Done(After(r, Resume(d), i)) && d' == Finished(After(r, Resume(d), i)) && log == Log(r, Resume(d), i);
    var m := if Done(After(r, Start(), n)) then n else n + i;
    assert After(r, Resume(d), i) == After(r, Start(), m) && Pages(r, m) == Pages(r, n) + |log| by {
      if Done(After(r, Start(), n)) {
        ResumedEnd(r, d, n, i);
      } else {
        ResumedRun(r, d, n, i);
      }
    }
    DoneUnique(r, Start(), m, RunLength(r));
    FinishedOnRun(r);
  }

  lemma FinishedOnRun(r: Remote)
    ensures OnRun(r, Finished(End(r)), RunLength(r))
  {
    DoneVisitsRoot(r, RunLength(r));
  }

  // ----- sequences of calls -----

  /**
   `h` is what the database held between successive calls, `logs` what each call fetched; only the
   last call succeeded.
   */
  ghost predicate History(r: Remote, h: seq<Durable>, logs: seq<seq<Fetch>>) {
    && |logs| > 0 && |h| == |logs| + 1
    && (forall j :: 0 <= j < |logs| - 1 ==> Interrupted(r, h[j], h[j + 1], logs[j]))
    && Completed(r, h[|logs| - 1], h[|logs|], logs[|logs| - 1])
  }

  function TotalFetches(logs: seq<seq<Fetch>>): nat {
    if logs == [] then 0 else TotalFetches(logs[..|logs| - 1]) + |logs[|logs| - 1]|
  }

  lemma {:induction false} PrefixOnRun(r: Remote, h: seq<Durable>, logs: seq<seq<Fetch>>, n0: nat,
                                       j: nat) returns (n: nat)
    requires IdsNonempty(r) && |h| == |logs| + 1 && j <= |logs| && OnRun(r, h[0], n0)
    requires forall k :: 0 <= k < j ==> Interrupted(r, h[k], h[k + 1], logs[k])
    ensures OnRun(r, h[j], n) && n0 <= n
    ensures Pages(r, n) <= Pages(r, n0) + TotalFetches(logs[..j]) <= Pages(r, n) + j
  {
    if j == 0 {
      n := n0;
    } else {
      var m := PrefixOnRun(r, h, logs, n0, j - 1);
      n := InterruptedOnRun(r, h[j - 1], h[j], logs[j - 1], m);
      assert logs[..j][..j - 1] == logs[..j - 1];
    }
  }

  /**
   Interruption is invisible: however many calls were cut short, the database ends as one
   uninterrupted crawl leaves it, and each interruption costs at most one repeated fetch.
   */
  lemma InterruptionInvisible(r: Remote, h: seq<Durable>, logs: seq<seq<Fetch>>)
    requires IdsNonempty(r) && History(r, h, logs) && h[0] == UNTOUCHED
    ensures h[|logs|] == Finished(End(r))
    ensures Pages(r, RunLength(r)) <= TotalFetches(logs) <= Pages(r, RunLength(r)) + |logs| - 1
  {
    var k := |logs| - 1;
    UntouchedOnRun(r);
    var n := PrefixOnRun(r, h, logs, 0, k);
    CompletedAtEnd(r, h[k], h[k + 1], logs[k], n);
  }

  /** A crawl of a finished share, such as one reactivated after completing, fetches nothing and changes nothing. */
  lemma FinishedCrawlIsNoop(r: Remote, d: Durable, log: seq<Fetch>)
    requires Completed(r, Finished(End(r)), d, log)
    ensures d == Finished(End(r)) && log == []
  {
    FinishedOnRun(r);
    CompletedAtEnd(r, Finished(End(r)), d, log, RunLength(r));
  }

  // ----- what every saved checkpoint satisfies -----

  /** A row filed under its own id, listed by its parent, one level below its parent's distance from the root. */
  ghost predicate Placed(r: Remote, id: string, row: Row) {
    && row.node.id == id && r.Indexable(row.node)
    && row.depth > 0 && Distance(r, row.parent, row.depth - 1)
    && exists offset: nat :: r.PageOffset(row.parent, offset) && row.node in r.Nodes(row.parent, offset)
  }

  /**
   Resuming from `d` forgets no discovered directory, queues breadth first, lists the
   active directory at its distance from the root, and finds every row of a page behind
   it stored; every row stored is where the share lists it, at its depth.
   */
  ghost predicate CheckpointSafe(r: Remote, d: Durable) {
    var st := Resume(d);
    match st
    case State(_, _, _, _) =>
      && Frontier(r, st)
      && Ordered(st)
      && Sound(r, st)
      && ActiveOk(r, st)
      && RowsComplete(r, st)
      && (forall id :: id in d.rows ==> Placed(r, id, d.rows[id]))
  }

  lemma RowsPlaced(r: Remote, st: State)
    requires RowsSound(r, st)
    ensures forall id :: id in st.rows ==> Placed(r, id, st.rows[id])
  {
    forall id | id in st.rows
      ensures Placed(r, id, st.rows[id])
    {
      assert RowListed(r, st, st.rows[id]);
    }
  }

  lemma PlacedListed(r: Remote, id: string, row: Row)
    requires Placed(r, id, row)
    ensures Listed(r, id)
  {
    var offset: nat :| r.PageOffset(row.parent, offset) && row.node in r.Nodes(row.parent, offset);
    assert Reachable(r, row.parent);
  }

  lemma RootAgainSafe(r: Remote, st: State)
    requires Good(r, st) && Done(st) && ROOT_CID in st.visited
    ensures var again := st.(queue := [ROOT_TASK]);
            Frontier(r, again) && Ordered(again) && Sound(r, again) && ActiveOk(r, again) && RowsComplete(r, again)
  {
    var again := st.(queue := [ROOT_TASK]);
    assert Pending(again) == [ROOT_TASK] && Pending(st) == [];
    assert forall c, k: nat :: Covered(st, c, k) ==> Covered(again, c, k);
    assert forall c, o: nat :: Fetched(r, again, c, o) <==> Fetched(r, st, c, o);
    assert Within(r, ROOT_CID, 0);
  }

  lemma MoreRowsSafe(r: Remote, st: State, rows: Rows)
    requires Good(r, st) && st.active.At? && rows == Visit(r, st).rows
    ensures var more := st.(rows := rows);
            Frontier(r, more) && Ordered(more) && Sound(r, more) && ActiveOk(r, more) && RowsComplete(r, more)
  {
    var more := st.(rows := rows);
    assert Pending(more) == Pending(st);
    assert forall c, k: nat :: Covered(st, c, k) ==> Covered(more, c, k);
    assert forall c, o: nat :: Fetched(r, more, c, o) <==> Fetched(r, st, c, o);
  }

  lemma OnRunSafe(r: Remote, d: Durable, n: nat)
    requires OnRun(r, d, n)
    ensures CheckpointSafe(r, d)
  {
    var here := After(r, Start(), n);
    assert Good(r, here) by { RunGood(r, n); }
    if d.rows == here.rows {
      RowsPlaced(r, here);
      if Resume(d) == here {
      } else {
        DoneVisitsRoot(r, n);
        RootAgainSafe(r, here);
      }
    } else {
      MoreRowsSafe(r, here, d.rows);
      assert RowsSound(r, Visit(r, here)) by { VisitKeepsRows(r, here); }
      RowsPlaced(r, Visit(r, here));
    }
  }

  /** After any number of interrupted calls, the checkpoint found by the next one is safe. */
  lemma EveryCheckpointSafe(r: Remote, h: seq<Durable>, logs: seq<seq<Fetch>>, j: nat)
    requires IdsNonempty(r) && |h| == |logs| + 1 && j <= |logs| && h[0] == UNTOUCHED
    requires forall k :: 0 <= k < j ==> Interrupted(r, h[k], h[k + 1], logs[k])
    ensures CheckpointSafe(r, h[j])
  {
    UntouchedOnRun(r);
    var n := PrefixOnRun(r, h, logs, 0, j);
    OnRunSafe(r, h[j], n);
  }

  ghost predicate AtDistance(r: Remote, log: seq<Fetch>) {
    forall i :: 0 <= i < |log| ==> Distance(r, log[i].cid, log[i].depth)
  }

  /** A resumed call fetches every page at its directory's distance from the root. */
  lemma ResumedLogDepths(r: Remote, d: Durable, n: nat, i: nat)
    requires OnRun(r, d, n)
    ensures AtDistance(r, Log(r, Resume(d), i))
  {
    if Done(After(r, Start(), n)) {
      ResumedEnd(r, d, n, i);
    } else {
      ResumedRun(r, d, n, i);
      RunLogGood(r, n + i);
      var before, log := Log(r, Start(), n), Log(r, Resume(d), i);
      forall k | 0 <= k < |log|
        ensures Distance(r, log[k].cid, log[k].depth)
      {
        assert (before + log)[|before| + k] == log[k];
      }
    }
  }

  /** So does every call of a history, interrupted or not. */
  lemma EveryFetchAtDistance(r: Remote, h: seq<Durable>, logs: seq<seq<Fetch>>, j: nat)
    requires IdsNonempty(r) && |h| == |logs| + 1 && j < |logs| && h[0] == UNTOUCHED
    requires forall k :: 0 <= k < j ==> Interrupted(r, h[k], h[k + 1], logs[k])
    requires Interrupted(r, h[j], h[j + 1], logs[j]) || Completed(r, h[j], h[j + 1], logs[j])
    ensures AtDistance(r, logs[j])
  {
    UntouchedOnRun(r);
    var n := PrefixOnRun(r, h, logs, 0, j);
    if Completed(r, h[j], h[j + 1], logs[j]) {
      var i: nat :| logs[j] == Log(r, Resume(h[j]), i);
      ResumedLogDepths(r, h[j], n, i);
    } else if logs[j] != [] {
      var i: nat :| StoppedAt(r, h[j], h[j + 1], logs[j], i);
      AfterNext(r, Resume(h[j]), i);
      ResumedLogDepths(r, h[j], n, i);
      ResumedLogDepths(r, h[j], n, i + 1);
    }
  }

  // ----- the one way interruption shows -----

  /** No directory with an empty id is visited or being listed, and the root has not been lost. */
  ghost predicate Avoiding(r: Remote, st: State) {
    match st
    case State(active, _, visited, _) =>
      && Fresh(st)
      && "" !in visited
      && (active.At? ==> active.task.cid != "")
      && Covered(st, ROOT_CID, 0)
  }

  lemma AvoidingVisit(r: Remote, st: State)
    requires Avoiding(r, st) && st.active.At?
    ensures Avoiding(r, Visit(r, st)) && Lower(r, Visit(r, st), st)
  {
    VisitProgress(r, st);
    VisitKeepsCovered(r, st, ROOT_CID, 0);
  }

  lemma AvoidingPop(r: Remote, st: State)
    requires Avoiding(r, st) && st.active.Idle? && st.queue != [] && st.queue[0].cid != ""
    ensures Avoiding(r, Pop(st)) && Lower(r, Pop(st), st)
  {
    PopProgress(r, st);
    PopKeepsCovered(st, ROOT_CID, 0);
  }

  lemma AvoidingNext(r: Remote, st: State)
    requires Avoiding(r, st) && !Done(st)
    requires st.active.Idle? ==> st.queue[0].cid != ""
    ensures Avoiding(r, Next(r, st)) && Lower(r, Next(r, st), st)
  {
    if st.active.At? {
      AvoidingVisit(r, st);
    } else {
      AvoidingPop(r, st);
    }
  }

  /** Stopping right after the checkpoint of an empty id drops that task from the queue. */
  lemma DropTask(r: Remote, st: State) returns (d: Durable)
    requires Avoiding(r, st) && st.active.Idle? && st.queue != [] && st.queue[0].cid == ""
    ensures Pop(st).active.At? && d == Durable(Some(PrePage(Pop(st))), st.rows)
    ensures Avoiding(r, Resume(d))
    ensures Resume(d).active.Idle? && Resume(d).queue != [] && (Lower(r, Resume(d), st) || Done(Pop(Resume(d))))
  {
    d := Durable(Some(PrePage(Pop(st))), st.rows);
    var t := Resume(d);
    assert Pending(st) == [st.queue[0]] + st.queue[1..];
    if st.queue[1..] == [] {
      assert Pending(st) == [st.queue[0]];
      assert ROOT_CID in st.visited;
      assert Pop(t).queue == [];
    } else {
      assert Pending(t) == st.queue[1..];
      assert Ahead(r, t) <= Ahead(r, st);
      SubsetSize(Ahead(r, t), Ahead(r, st));
      if ROOT_CID !in st.visited {
        var task :| task in Pending(st) && task.cid == ROOT_CID && task.depth <= 0;
        assert task in Pending(t);
      }
    }
  }

  lemma DropInterrupts(r: Remote, d0: Durable, i: nat, st: State, d: Durable)
    requires st == After(r, Resume(d0), i) && st.active.Idle? && st.queue != [] && Pop(st).active.At?
    requires d == Durable(Some(PrePage(Pop(st))), st.rows)
    ensures Interrupted(r, d0, d, Log(r, Resume(d0), i + 1))
  {
    AfterNext(r, Resume(d0), i);
    assert StoppedAt(r, d0, d, Log(r, Resume(d0), i + 1), i + 1);
  }

  /** A call with nothing left but the visited root ends at once. */
  lemma LastCall(r: Remote, d: Durable) returns (h: seq<Durable>, logs: seq<seq<Fetch>>)
    requires Avoiding(r, Resume(d)) && Resume(d).active.Idle? && Resume(d).queue != [] && Done(Pop(Resume(d)))
    ensures Ends(r, d, h, logs)
  {
    AfterNext(r, Resume(d), 0);
    var end := After(r, Resume(d), 1);
    assert end == Pop(Resume(d));
    h, logs := [d, Finished(end)], [Log(r, Resume(d), 1)];
    assert Completed(r, d, h[1], logs[0]);
  }

  lemma EndHere(r: Remote, d0: Durable, i: nat, st: State) returns (h: seq<Durable>, logs: seq<seq<Fetch>>)
    requires st == After(r, Resume(d0), i) && Done(st) && "" !in st.visited
    ensures Ends(r, d0, h, logs)
  {
    h, logs := [d0, Finished(st)], [Log(r, Resume(d0), i)];
  }

  /** A history from `d0` whose last call returns without error, with no directory of empty id visited. */
  ghost predicate Ends(r: Remote, d0: Durable, h: seq<Durable>, logs: seq<seq<Fetch>>) {
    && History(r, h, logs)
    && h[0] == d0
    && h[|logs|].checkpoint.Some?
    && "" !in h[|logs|].checkpoint.value.visited
  }

  /**
   From a call's step `i` on, stopping at each empty id leads to a crawl that returns without error
   and never visits it.
   */
  lemma {:induction false} Adversary(r: Remote, d0: Durable, i: nat,
                                     st: State) returns (h: seq<Durable>, logs: seq<seq<Fetch>>)
    requires st == After(r, Resume(d0), i) && Avoiding(r, st)
    ensures Ends(r, d0, h, logs)
    decreases |Ahead(r, st)|, Phase(st), Rest(r, st)
  {
    if Done(st) {
      h, logs := EndHere(r, d0, i, st);
    } else if st.active.Idle? && st.queue[0].cid == "" {
      var d := DropTask(r, st);
      var h', logs';
      if Done(Pop(Resume(d))) {
        h', logs' := LastCall(r, d);
      } else {
        h', logs' := Adversary(r, d, 0, Resume(d));
      }
      DropInterrupts(r, d0, i, st, d);
      h, logs := PrependCall(r, d0, d, Log(r, Resume(d0), i + 1), h', logs');
    } else {
      assert After(r, Resume(d0), i + 1) == Next(r, st) by { AfterNext(r, Resume(d0), i); }
      assert Avoiding(r, Next(r, st)) && Lower(r, Next(r, st), st) by { AvoidingNext(r, st); }
      h, logs := Adversary(r, d0, i + 1, Next(r, st));
    }
  }

  lemma PrependCall(r: Remote, d0: Durable, d: Durable, log: seq<Fetch>, h: seq<Durable>, logs: seq<seq<Fetch>>)
    returns (h': seq<Durable>, logs': seq<seq<Fetch>>)
    requires Interrupted(r, d0, d, log) && Ends(r, d, h, logs)
    ensures Ends(r, d0, h', logs')
  {
    h', logs' := [d0] + h, [log] + logs;
    forall j | 0 <= j < |logs'| - 1
      ensures Interrupted(r, h'[j], h'[j + 1], logs'[j])
    {
      if j > 0 {
        assert h'[j] == h[j - 1] && h'[j + 1] == h[j] && logs'[j] == logs[j - 1];
      }
    }
  }

  /** Every history of the share, from an untouched database, ends as one uninterrupted crawl does. */
  ghost predicate AlwaysInvisible(r: Remote) {
    forall h, logs :: History(r, h, logs) && h[0] == UNTOUCHED ==> h[|logs|] == Finished(End(r))
  }

  /** Interruption is invisible exactly when no reachable directory has an empty id, which a checkpoint cannot name. */
  lemma InvisibleIffIdsNonempty(r: Remote)
    ensures AlwaysInvisible(r) <==> IdsNonempty(r)
  {
    if IdsNonempty(r) {
      forall h, logs | History(r, h, logs) && h[0] == UNTOUCHED
        ensures h[|logs|] == Finished(End(r))
      {
        InterruptionInvisible(r, h, logs);
      }
    } else {
      assert After(r, Resume(UNTOUCHED), 0) == Start();
      assert Avoiding(r, Start()) by { StartGood(r); }
      var h, logs := Adversary(r, UNTOUCHED, 0, Start());
      VisitedIsReachable(r, "");
      assert h[|logs|] != Finished(End(r));
    }
  }
}
