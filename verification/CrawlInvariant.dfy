/**
 What holds in every state of the uninterrupted crawl, and therefore in every saved
 checkpoint: no discovered directory is forgotten, the queue is in breadth-first
 order, and the stored rows are those of the pages fetched so far.
 */
module CrawlInvariant {
  import opened Basics
  import opened Iteration
  import opened Snapshots
  import opened CrawlRun

  /** The page of `cid` at `offset` has been processed. */
  ghost predicate Fetched(r: Remote, st: State, cid: Cid, offset: nat) {
    && r.PageOffset(cid, offset)
    && (cid in st.visited
        || (st.active.At? && cid == st.active.task.cid && offset < st.active.offset))
  }

  /** `c` is visited, or is queued or active at depth `k` or less. */
  ghost predicate Covered(st: State, c: Cid, k: nat) {
    c in st.visited || exists t :: t in Pending(st) && t.cid == c && t.depth <= k
  }

  /** Nothing discovered is lost, and it waits at a depth no greater than its path needs. */
  ghost predicate Frontier(r: Remote, st: State) {
    && Covered(st, ROOT_CID, 0)
    && forall p, offset: nat, c, k: nat ::
         Fetched(r, st, p, offset) && c in DirIds(r.Nodes(p, offset)) && Within(r, p, k) ==> Covered(st, c, k + 1)
  }

  /** Waiting tasks are ordered by depth and span at most two levels. */
  ghost predicate Ordered(st: State) {
    InOrder(Pending(st))
  }

  ghost predicate InOrder(tasks: seq<Task>) {
    forall i, j :: 0 <= i < j < |tasks| ==> tasks[i].depth <= tasks[j].depth <= tasks[i].depth + 1
  }

  /** Only reachable directories are visited or waiting, and a depth is the length of some path. */
  ghost predicate Sound(r: Remote, st: State) {
    && (forall t :: t in Pending(st) ==> Within(r, t.cid, t.depth))
    && (forall c :: c in st.visited ==> Reachable(r, c))
  }

  /** The active directory is unvisited, stands at one of its page offsets, and carries its distance. */
  ghost predicate ActiveOk(r: Remote, st: State) {
    st.active.At? ==>
      && Fresh(st)
      && r.PageOffset(st.active.task.cid, st.active.offset)
      && Distance(r, st.active.task.cid, st.active.task.depth)
  }

  /** `row` was listed on a fetched page of its parent, one level below the parent's distance. */
  ghost predicate RowListed(r: Remote, st: State, row: Row) {
    && r.Indexable(row.node)
    && row.depth > 0
    && Distance(r, row.parent, row.depth - 1)
    && exists offset: nat :: Fetched(r, st, row.parent, offset) && row.node in r.Nodes(row.parent, offset)
  }

  ghost predicate RowsSound(r: Remote, st: State) {
    forall id :: id in st.rows ==> st.rows[id].node.id == id && RowListed(r, st, st.rows[id])
  }

  ghost predicate RowsComplete(r: Remote, st: State) {
    forall cid, offset: nat, node ::
      Fetched(r, st, cid, offset) && node in r.Nodes(cid, offset) && r.Indexable(node) ==> node.id in st.rows
  }

  ghost predicate Good(r: Remote, st: State) {
    match st
    case State(_, _, _, _) =>
      && Frontier(r, st)
      && Ordered(st)
      && Sound(r, st)
      && ActiveOk(r, st)
      && RowsSound(r, st)
      && RowsComplete(r, st)
  }

  // ----- the breadth-first argument -----

  /** While everything waiting is at depth `d` or more, all directories nearer than `d` are visited. */
  lemma {:induction false} NearerVisited(r: Remote, st: State, d: nat, c: Cid, k: nat)
    requires Frontier(r, st) && ActiveOk(r, st)
    requires forall t :: t in Pending(st) ==> d <= t.depth
    requires Within(r, c, k) && k < d
    ensures c in st.visited
    decreases k
  {
    if k == 0 {
      assert Covered(st, ROOT_CID, 0);
    } else if Within(r, c, k - 1) {
      NearerVisited(r, st, d, c, k - 1);
    } else {
      var p :| Within(r, p, k - 1) && Child(r, p, c);
      NearerVisited(r, st, d, p, k - 1);
      var offset: nat :| r.PageOffset(p, offset) && c in DirIds(r.Nodes(p, offset));
      assert Fetched(r, st, p, offset);
      assert Covered(st, c, k);
    }
  }

  /** The first waiting task, when unvisited, carries its directory's distance. */
  lemma HeadDistance(r: Remote, st: State)
    requires Good(r, st) && Pending(st) != [] && Pending(st)[0].cid !in st.visited
    ensures Distance(r, Pending(st)[0].cid, Pending(st)[0].depth)
  {
    var head := Pending(st)[0];
    assert head in Pending(st);
    forall t | t in Pending(st)
      ensures head.depth <= t.depth
    {
      var i :| 0 <= i < |Pending(st)| && Pending(st)[i] == t;
    }
    if head.depth > 0 && Within(r, head.cid, head.depth - 1) {
      NearerVisited(r, st, head.depth, head.cid, head.depth - 1);
      assert false;
    }
  }

  // ----- the step that pops the queue -----

  lemma PopKeepsFetched(r: Remote, st: State)
    requires st.active.Idle? && st.queue != []
    ensures forall c, o: nat :: Fetched(r, Pop(st), c, o) <==> Fetched(r, st, c, o)
  {
  }

  lemma PopKeepsCovered(st: State, c: Cid, k: nat)
    requires st.active.Idle? && st.queue != [] && Covered(st, c, k)
    ensures Covered(Pop(st), c, k)
  {
    if c !in st.visited {
      var t :| t in Pending(st) && t.cid == c && t.depth <= k;
      assert Pending(st) == [st.queue[0]] + st.queue[1..];
      assert t in Pending(Pop(st));
    }
  }

  lemma PopKeepsGood(r: Remote, st: State)
    requires Good(r, st) && st.active.Idle? && st.queue != []
    ensures Good(r, Pop(st))
  {
    var st' := Pop(st);
    PopKeepsFetched(r, st);
    assert Pending(st') == Pending(st) || Pending(st') == Pending(st)[1..];
    assert Frontier(r, st') by {
      PopKeepsCovered(st, ROOT_CID, 0);
      forall p, offset: nat, c, k: nat |
        Fetched(r, st', p, offset) && c in DirIds(r.Nodes(p, offset)) && Within(r, p, k)
        ensures Covered(st', c, k + 1)
      {
        PopKeepsCovered(st, c, k + 1);
      }
    }
    assert ActiveOk(r, st') by {
      if st'.active.At? {
        HeadDistance(r, st);
      }
    }
    assert RowsSound(r, st') by {
      forall id | id in st'.rows
        ensures RowListed(r, st', st'.rows[id])
      {
        KeepRowListed(r, st, st', st.rows[id]);
      }
    }
  }

  lemma KeepRowListed(r: Remote, st: State, st': State, row: Row)
    requires RowListed(r, st, row)
    requires forall c, o: nat :: Fetched(r, st, c, o) ==> Fetched(r, st', c, o)
    ensures RowListed(r, st', row)
  {
  }

  // ----- the step that processes a page -----

  /** Exactly the page under the cursor becomes fetched. */
  lemma VisitFetches(r: Remote, st: State)
    requires st.active.At? && ActiveOk(r, st)
    ensures var At(task, offset) := st.active;
            forall c, o: nat ::
              Fetched(r, Visit(r, st), c, o) <==> Fetched(r, st, c, o) || (c == task.cid && o == offset)
  {
    var At(task, offset) := st.active;
    var st' := Visit(r, st);
    forall c, o: nat
      ensures Fetched(r, st', c, o) <==> Fetched(r, st, c, o) || (c == task.cid && o == offset)
    {
      if c == task.cid && r.PageOffset(c, o) && offset < o {
        PageOffsetsApart(r, c, offset, o);
      }
    }
  }

  lemma VisitKeepsCovered(r: Remote, st: State, c: Cid, k: nat)
    requires st.active.At? && Covered(st, c, k)
    ensures Covered(Visit(r, st), c, k)
  {
    var st' := Visit(r, st);
    if c !in st'.visited {
      var t :| t in Pending(st) && t.cid == c && t.depth <= k;
      assert t in Pending(st');
    }
  }

  lemma VisitKeepsFrontier(r: Remote, st: State)
    requires st.active.At? && ActiveOk(r, st) && Frontier(r, st)
    ensures Frontier(r, Visit(r, st))
  {
    var At(task, offset) := st.active;
    var st' := Visit(r, st);
    VisitFetches(r, st);
    VisitKeepsCovered(r, st, ROOT_CID, 0);
    forall p, o: nat, c, k: nat | Fetched(r, st', p, o) && c in DirIds(r.Nodes(p, o)) && Within(r, p, k)
      ensures Covered(st', c, k + 1)
    {
      if Fetched(r, st, p, o) {
        VisitKeepsCovered(r, st, c, k + 1);
      } else {
        if k < task.depth {
          WithinMonotone(r, p, k, task.depth - 1);
        }
        DirTasksAreDirs(r.Nodes(p, o), task.depth + 1);
        assert Task(c, task.depth + 1) in DirTasks(r.Nodes(p, o), task.depth + 1);
        assert Task(c, task.depth + 1) in Pending(st');
      }
    }
  }

  /** Dropping or keeping the head, and appending tasks one level below it, keeps the order. */
  lemma InOrderVisit(tasks: seq<Task>, kept: seq<Task>, added: seq<Task>)
    requires InOrder(tasks) && tasks != [] && (kept == tasks || kept == tasks[1..])
    requires forall t :: t in added ==> t.depth == tasks[0].depth + 1
    ensures InOrder(kept + added)
  {
    var all := kept + added;
    forall i | 0 <= i < |all|
      ensures tasks[0].depth <= all[i].depth <= tasks[0].depth + 1
      ensures i >= |kept| ==> all[i].depth == tasks[0].depth + 1
    {
      if i >= |kept| {
        assert all[i] in added;
      }
    }
  }

  lemma VisitKeepsOrdered(r: Remote, st: State)
    requires st.active.At? && Ordered(st)
    ensures Ordered(Visit(r, st))
  {
    var task := st.active.task;
    var st' := Visit(r, st);
    var added := DirTasks(r.Nodes(task.cid, st.active.offset), task.depth + 1);
    var kept := if st'.active.At? then Pending(st) else Pending(st)[1..];
    assert Pending(st') == kept + added;
    assert Pending(st)[0] == task;
    DirTasksAreDirs(r.Nodes(task.cid, st.active.offset), task.depth + 1);
    InOrderVisit(Pending(st), kept, added);
  }

  lemma ChildWithin(r: Remote, p: Cid, offset: nat, c: Cid, k: nat)
    requires r.PageOffset(p, offset) && c in DirIds(r.Nodes(p, offset)) && Within(r, p, k)
    ensures Within(r, c, k + 1)
  {
    assert Child(r, p, c);
  }

  lemma VisitKeepsSound(r: Remote, st: State)
    requires st.active.At? && ActiveOk(r, st) && Sound(r, st)
    ensures Sound(r, Visit(r, st))
  {
    var At(task, offset) := st.active;
    var st' := Visit(r, st);
    var added := DirTasks(r.Nodes(task.cid, offset), task.depth + 1);
    assert task in Pending(st);
    DirTasksAreDirs(r.Nodes(task.cid, offset), task.depth + 1);
    forall t | t in Pending(st')
      ensures Within(r, t.cid, t.depth)
    {
      if t in added {
        ChildWithin(r, task.cid, offset, t.cid, task.depth);
      } else {
        assert t in Pending(st);
      }
    }
  }

  /** `row` is what an indexable entry of a page becomes. */
  ghost predicate FromPage(r: Remote, nodes: seq<Node>, parent: Cid, depth: nat, row: Row) {
    row.parent == parent && row.depth == depth && row.node in nodes && r.Indexable(row.node)
  }

  /** The rows of a page are those of its indexable entries, keyed by their ids. */
  lemma {:induction false} PageRowsHold(r: Remote, nodes: seq<Node>, parent: Cid, depth: nat)
    ensures forall id :: id in PageRows(r, nodes, parent, depth) ==>
              var row := PageRows(r, nodes, parent, depth)[id];
              row.node.id == id && FromPage(r, nodes, parent, depth, row)
    ensures forall node :: node in nodes && r.Indexable(node) ==> node.id in PageRows(r, nodes, parent, depth)
  {
    if nodes != [] {
      var n := |nodes| - 1;
      PageRowsHold(r, nodes[..n], parent, depth);
      assert nodes == nodes[..n] + [nodes[n]];
      var rest, rows := PageRows(r, nodes[..n], parent, depth), PageRows(r, nodes, parent, depth);
      forall id | id in rows
        ensures rows[id].node.id == id && FromPage(r, nodes, parent, depth, rows[id])
      {
        if id in rest {
          assert FromPage(r, nodes[..n], parent, depth, rest[id]);
        }
      }
    }
  }

  lemma VisitKeepsRows(r: Remote, st: State)
    requires st.active.At? && ActiveOk(r, st) && RowsSound(r, st) && RowsComplete(r, st)
    ensures RowsSound(r, Visit(r, st)) && RowsComplete(r, Visit(r, st))
  {
    var At(task, offset) := st.active;
    var st' := Visit(r, st);
    var nodes := r.Nodes(task.cid, offset);
    VisitFetches(r, st);
    PageRowsHold(r, nodes, task.cid, task.depth + 1);
    forall id | id in st'.rows
      ensures st'.rows[id].node.id == id && RowListed(r, st', st'.rows[id])
    {
      if id in PageRows(r, nodes, task.cid, task.depth + 1) {
        assert FromPage(r, nodes, task.cid, task.depth + 1, st'.rows[id]);
        assert Fetched(r, st', task.cid, offset);
      } else {
        KeepRowListed(r, st, st', st.rows[id]);
      }
    }
  }

  // ----- every state of the run -----

  lemma StartGood(r: Remote)
    ensures Good(r, Start())
  {
    var st := Start();
    assert Pending(st) == [ROOT_TASK];
    assert Covered(st, ROOT_CID, 0) by {
      assert ROOT_TASK in Pending(st);
    }
    assert forall c, o: nat :: !Fetched(r, st, c, o);
    assert Frontier(r, st);
    assert Sound(r, st);
  }

  lemma NextGood(r: Remote, st: State)
    requires Good(r, st)
    ensures Good(r, Next(r, st))
  {
    if st.active.At? {
      VisitKeepsFrontier(r, st);
      VisitKeepsOrdered(r, st);
      VisitKeepsSound(r, st);
      VisitKeepsRows(r, st);
      VisitKeepsActive(r, st);
    } else if st.queue != [] {
      PopKeepsGood(r, st);
    }
  }

  lemma VisitKeepsActive(r: Remote, st: State)
    requires st.active.At? && ActiveOk(r, st)
    ensures ActiveOk(r, Visit(r, st))
  {
  }

  lemma {:induction false} RunGood(r: Remote, n: nat)
    ensures Good(r, After(r, Start(), n))
  {
    if n == 0 {
      StartGood(r);
    } else {
      RunGood(r, n - 1);
      NextGood(r, After(r, Start(), n - 1));
    }
  }
}
