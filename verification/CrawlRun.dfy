/**
 The crawl of one share as a deterministic machine with one step per queue pop and
 one per page. This is the uninterrupted run: crawler.go's loops without failures.
 */
module CrawlRun {
  import opened Basics
  import opened Iteration
  import opened Snapshots

  datatype Task = Task(cid: Cid, depth: nat)

  /** The page about to be fetched, if a directory is being listed. */
  datatype Cursor = Idle | At(task: Task, offset: nat)

  /** A row of the `file` table, without its share code and crawl time. */
  datatype Row = Row(node: Node, parent: Cid, depth: nat)

  /** The rows of one share, keyed by file id. */
  type Rows = map<string, Row>

  datatype State = State(active: Cursor, queue: seq<Task>, visited: set<Cid>, rows: Rows)

  /** A page fetch, at the depth the crawler believed the directory to have. */
  datatype Fetch = Fetch(cid: Cid, depth: nat, offset: nat)

  const ROOT_TASK := Task(ROOT_CID, 0)

  function Start(): State {
    State(Idle, [ROOT_TASK], {}, map[])
  }

  predicate Done(st: State) {
    st.active.Idle? && st.queue == []
  }

  /** The queue entries a page adds, in page order. */
  function DirTasks(nodes: seq<Node>, depth: nat): seq<Task> {
    if nodes == [] then []
    else
      var last := nodes[|nodes| - 1];
      DirTasks(nodes[..|nodes| - 1], depth) + (if last.isDir then [Task(last.id, depth)] else [])
  }

  /** The queued tasks are the page's directories, all at the given depth. */
  lemma {:induction false} DirTasksAreDirs(nodes: seq<Node>, depth: nat)
    ensures forall t :: t in DirTasks(nodes, depth) <==> t.depth == depth && t.cid in DirIds(nodes)
  {
    if nodes != [] {
      DirTasksAreDirs(nodes[..|nodes| - 1], depth);
      DirIdsSnoc(nodes);
    }
  }

  lemma DirIdsSnoc(nodes: seq<Node>)
    requires nodes != []
    ensures var last := nodes[|nodes| - 1];
            DirIds(nodes) == DirIds(nodes[..|nodes| - 1]) + (if last.isDir then {last.id} else {})
  {
    var n := |nodes| - 1;
    assert forall i | 0 <= i < n :: nodes[..n][i] == nodes[i];
  }

  /** The rows a page writes: its directories and media files, a later entry replacing an earlier one of the same id. */
  function PageRows(r: Remote, nodes: seq<Node>, parent: Cid, depth: nat): Rows {
    if nodes == [] then map[]
    else
      var last := nodes[|nodes| - 1];
      var rest := PageRows(r, nodes[..|nodes| - 1], parent, depth);
      if r.Indexable(last) then rest[last.id := Row(last, parent, depth)] else rest
  }

  /** Process the page under the cursor. */
  function Visit(r: Remote, st: State): State
    requires st.active.At?
  {
    var At(task, offset) := st.active;
    var page := r.PageAt(task.cid, offset);
    State(
      if page.hasMore then At(task, offset + r.pageSize) else Idle,
      st.queue + DirTasks(page.nodes, task.depth + 1),
      if page.hasMore then st.visited else st.visited + {task.cid},
      st.rows + PageRows(r, page.nodes, task.cid, task.depth + 1))
  }

  /** Take the next task, dropping it when its directory was visited already. */
  function Pop(st: State): State
    requires st.active.Idle? && st.queue != []
  {
    var task := st.queue[0];
    st.(active := if task.cid in st.visited then Idle else At(task, 0), queue := st.queue[1..])
  }

  function Next(r: Remote, st: State): State {
    if st.active.At? then Visit(r, st)
    else if st.queue != [] then Pop(st)
    else st
  }

  /** The page the next step fetches, if it fetches one. */
  function FetchOf(st: State): seq<Fetch> {
    if st.active.Idle? then []
    else [Fetch(st.active.task.cid, st.active.task.depth, st.active.offset)]
  }

  function Stepper(r: Remote): State -> State {
    (st: State) => Next(r, st)
  }

  /** The state `n` steps after `st`. */
  function After(r: Remote, st: State, n: nat): State {
    Iterate(Stepper(r), st, n)
  }

  /** The page fetches of the first `n` steps after `st`. */
  function Log(r: Remote, st: State, n: nat): seq<Fetch> {
    Outputs(Stepper(r), FetchOf, st, n)
  }

  lemma AfterNext(r: Remote, st: State, n: nat)
    ensures After(r, st, n + 1) == Next(r, After(r, st, n))
    ensures Log(r, st, n + 1) == Log(r, st, n) + FetchOf(After(r, st, n))
  {
  }

  lemma AfterFirst(r: Remote, st: State, n: nat)
    ensures After(r, Next(r, st), n) == After(r, st, n + 1)
  {
    IterateFirst(Stepper(r), st, n);
    assert Stepper(r)(st) == Next(r, st);
  }

  /** A finished run stays where it is and fetches nothing more. */
  lemma DoneStays(r: Remote, st: State, m: nat, n: nat)
    requires m <= n && Done(After(r, st, m))
    ensures After(r, st, n) == After(r, st, m)
    ensures Log(r, st, n) == Log(r, st, m)
  {
    FixedPoint(Stepper(r), FetchOf, st, m, n);
  }

  /** Two ways a run can end are the same end. */
  lemma DoneUnique(r: Remote, st: State, m: nat, n: nat)
    requires Done(After(r, st, m)) && Done(After(r, st, n))
    ensures After(r, st, n) == After(r, st, m)
    ensures Log(r, st, n) == Log(r, st, m)
  {
    if m < n {
      DoneStays(r, st, m, n);
    } else {
      DoneStays(r, st, n, m);
    }
  }

  // ----- termination -----

  /** Tasks still ahead, the active one first. */
  function Pending(st: State): seq<Task> {
    (if st.active.At? then [st.active.task] else []) + st.queue
  }

  /** The active directory is never one already visited. */
  predicate Fresh(st: State) {
    st.active.At? ==> st.active.task.cid !in st.visited
  }

  /** Directories the run may still have to list. */
  ghost function Ahead(r: Remote, st: State): set<Cid> {
    (r.Mentioned() + (set t | t in Pending(st) :: t.cid)) - st.visited
  }

  ghost function Phase(st: State): nat {
    if st.active.At? then 0 else 1
  }

  ghost function Rest(r: Remote, st: State): nat {
    if st.active.Idle? then |st.queue|
    else
      var At(task, offset) := st.active;
      if offset < r.Count(task.cid) then r.Count(task.cid) - offset else 0
  }

  ghost predicate Lower(r: Remote, st': State, st: State) {
    && |Ahead(r, st')| <= |Ahead(r, st)|
    && (|Ahead(r, st')| == |Ahead(r, st)| ==>
          Phase(st') < Phase(st) || (Phase(st') == Phase(st) && Rest(r, st') < Rest(r, st)))
  }

  lemma NodesMentioned(r: Remote, cid: Cid, offset: nat)
    ensures DirIds(r.Nodes(cid, offset)) <= r.Mentioned()
  {
    var nodes := r.Nodes(cid, offset);
    forall c | c in DirIds(nodes)
      ensures c in r.Mentioned()
    {
      var i :| 0 <= i < |nodes| && nodes[i].isDir && nodes[i].id == c;
      assert (cid, offset) in r.lists && r.lists[(cid, offset)][i] == nodes[i];
    }
  }

  lemma PopProgress(r: Remote, st: State)
    requires st.active.Idle? && st.queue != []
    ensures Fresh(Pop(st)) && Lower(r, Pop(st), st)
  {
    assert Ahead(r, Pop(st)) <= Ahead(r, st);
    SubsetSize(Ahead(r, Pop(st)), Ahead(r, st));
  }

  lemma VisitAhead(r: Remote, st: State)
    requires st.active.At?
    ensures Ahead(r, Visit(r, st)) <= Ahead(r, st)
  {
    var At(task, offset) := st.active;
    NodesMentioned(r, task.cid, offset);
    DirTasksAreDirs(r.Nodes(task.cid, offset), task.depth + 1);
    forall c | c in Ahead(r, Visit(r, st))
      ensures c in Ahead(r, st)
    {
      if c !in r.Mentioned() {
        var t :| t in Pending(Visit(r, st)) && t.cid == c;
        assert t in Pending(st);
      }
    }
  }

  lemma VisitProgress(r: Remote, st: State)
    requires st.active.At? && Fresh(st)
    ensures Fresh(Visit(r, st)) && Lower(r, Visit(r, st), st)
  {
    var task := st.active.task;
    VisitAhead(r, st);
    SubsetSize(Ahead(r, Visit(r, st)), Ahead(r, st));
    if Visit(r, st).active.Idle? {
      assert task in Pending(st);
      assert task.cid in Ahead(r, st) && task.cid !in Ahead(r, Visit(r, st));
    }
  }

  /** Every step lowers (directories ahead, phase, queue length or entries left), in that order. */
  lemma Progress(r: Remote, st: State)
    requires !Done(st) && Fresh(st)
    ensures Fresh(Next(r, st)) && Lower(r, Next(r, st), st)
  {
    if st.active.At? {
      VisitProgress(r, st);
    } else {
      PopProgress(r, st);
    }
  }

  /** From any state the run comes to an end, after `n` steps. */
  lemma {:induction false} Terminates(r: Remote, st: State) returns (n: nat)
    requires Fresh(st)
    ensures Done(After(r, st, n))
    decreases |Ahead(r, st)|, Phase(st), Rest(r, st)
  {
    n := 0;
    if !Done(st) {
      var next := Next(r, st);
      assert Fresh(next) && Lower(r, next, st) by {
        Progress(r, st);
      }
      n := Terminates(r, next);
      n := n + 1;
      AfterFirst(r, st, n - 1);
    }
  }

  /** Where the uninterrupted crawl of the share ends. */
  ghost function End(r: Remote): (st: State)
    ensures Done(st)
    ensures exists n: nat :: st == After(r, Start(), n)
  {
    After(r, Start(), RunLength(r))
  }

  ghost function RunLength(r: Remote): (n: nat)
    ensures Done(After(r, Start(), n))
  {
    assert exists n: nat :: Done(After(r, Start(), n)) by {
      var n := Terminates(r, Start());
    }
    var n: nat :| Done(After(r, Start(), n));
    n
  }
}
