/** `CrawlShare` as the program runs it: over a store it updates in place, with every call able to fail. */
module Crawler {
  import opened Basics
  import opened Snapshots
  import opened CrawlRun
  import opened Checkpoints
  import opened CrawlAnswers

  datatype StoredRow = StoredRow(row: Row, crawledAt: int)

  type FileTable = map<string, StoredRow>

  datatype Meta = Meta(title: string, fileSize: int)

  /** The table without crawl times. */
  function Strip(files: FileTable): Rows {
    map id | id in files :: files[id].row
  }

  /** The table after upserting a batch row by row. */
  function Upserted(files: FileTable, batch: seq<StoredRow>): FileTable {
    if batch == [] then files
    else
      var last := batch[|batch| - 1];
      Upserted(files, batch[..|batch| - 1])[last.row.node.id := last]
  }

  function Stamped(nodes: seq<Node>, parent: Cid, depth: nat, crawledAt: int): (batch: seq<StoredRow>)
    ensures |batch| == |nodes|
  {
    seq(|nodes|, i requires 0 <= i < |nodes| => StoredRow(Row(nodes[i], parent, depth), crawledAt))
  }

  function Filtered(r: Remote, batch: seq<StoredRow>): seq<StoredRow> {
    if batch == [] then []
    else
      var last := batch[|batch| - 1];
      Filtered(r, batch[..|batch| - 1]) + (if r.Indexable(last.row.node) then [last] else [])
  }

  lemma UpsertOne(files: FileTable, front: seq<StoredRow>, last: StoredRow)
    ensures Upserted(files, front + [last]) == Upserted(files, front)[last.row.node.id := last]
    ensures Strip(Upserted(files, front + [last])) == Strip(Upserted(files, front))[last.row.node.id := last.row]
  {
    assert (front + [last])[..|front|] == front;
  }

  lemma FilteredLast(r: Remote, nodes: seq<Node>, parent: Cid, depth: nat, at: int)
    requires nodes != []
    ensures var n := |nodes| - 1;
            Filtered(r, Stamped(nodes, parent, depth, at))
            == Filtered(r, Stamped(nodes[..n], parent, depth, at))
               + (if r.Indexable(nodes[n]) then [StoredRow(Row(nodes[n], parent, depth), at)] else [])
  {
    assert Stamped(nodes, parent, depth, at)[..|nodes| - 1] == Stamped(nodes[..|nodes| - 1], parent, depth, at);
  }

  /** Upserting a page's stamped and filtered rows adds exactly the rows of that page. */
  lemma {:induction false} UpsertAddsPageRows(r: Remote, files: FileTable, nodes: seq<Node>, parent: Cid, depth: nat,
                                              at: int)
    ensures Strip(Upserted(files, Filtered(r, Stamped(nodes, parent, depth, at)))) ==
            Strip(files) + PageRows(r, nodes, parent, depth)
  {
    if nodes == [] {
      assert Stamped(nodes, parent, depth, at) == [];
    } else {
      var n := |nodes| - 1;
      var front := Filtered(r, Stamped(nodes[..n], parent, depth, at));
      var last := StoredRow(Row(nodes[n], parent, depth), at);
      assert Strip(Upserted(files, front)) == Strip(files) + PageRows(r, nodes[..n], parent, depth) by {
        UpsertAddsPageRows(r, files, nodes[..n], parent, depth, at);
      }
      assert Filtered(r, Stamped(nodes, parent, depth, at))
          == if r.Indexable(nodes[n]) then front + [last] else front by {
        FilteredLast(r, nodes, parent, depth, at);
        assert front + [] == front;
      }
      assert Strip(Upserted(files, front + [last])) == Strip(Upserted(files, front))[nodes[n].id := last.row] by {
        UpsertOne(files, front, last);
      }
    }
  }

  /** Every row of `after` is stamped `at` or is a row of `before`, unchanged. */
  ghost predicate StampedOrKept(before: FileTable, after: FileTable, at: int) {
    forall id :: id in after ==> after[id].crawledAt == at || (id in before && after[id] == before[id])
  }

  lemma {:induction false} UpsertStamps(r: Remote, before: FileTable, files: FileTable, batch: seq<StoredRow>, at: int)
    requires StampedOrKept(before, files, at)
    requires forall i :: 0 <= i < |batch| ==> batch[i].crawledAt == at
    ensures StampedOrKept(before, Upserted(files, Filtered(r, batch)), at)
  {
    if batch != [] {
      var n := |batch| - 1;
      UpsertStamps(r, before, files, batch[..n], at);
      var front := Filtered(r, batch[..n]);
      UpsertOne(files, front, batch[n]);
      assert front + [] == front;
    }
  }

  /** One share's rows in the database. Each call works or fails as `works` says; a failed call changes nothing. */
  class CrawlStore {
    var files: FileTable
    var checkpoint: Option<Checkpoint>
    var meta: Option<Meta>

    constructor (files: FileTable, checkpoint: Option<Checkpoint>)
      ensures this.files == files && this.checkpoint == checkpoint && meta == None
    {
      this.files, this.checkpoint, meta := files, checkpoint, None;
    }

    ghost function Content(): Durable
      reads this
    {
      Durable(checkpoint, Strip(files))
    }

    method LoadCheckpoint(works: bool) returns (cp: Result<Option<Checkpoint>, CrawlError>)
      ensures cp == if works then Ok(checkpoint) else Err(OtherError)
    {
      cp := if works then Ok(checkpoint) else Err(OtherError);
    }

    method SaveCheckpoint(cp: Checkpoint, works: bool) returns (ok: bool)
      modifies this`checkpoint
      ensures ok == works
      ensures checkpoint == if works then Some(cp) else old(checkpoint)
    {
      if works {
        checkpoint := Some(cp);
      }
      ok := works;
    }

    /** One transaction: the whole batch, or nothing. */
    method UpsertFiles(batch: seq<StoredRow>, works: bool) returns (ok: bool)
      modifies this`files
      ensures ok == works
      ensures files == if works then Upserted(old(files), batch) else old(files)
    {
      var pending := files;
      for i := 0 to |batch|
        invariant pending == Upserted(files, batch[..i])
        invariant files == old(files)
      {
        pending := pending[batch[i].row.node.id := batch[i]];
        assert batch[..i + 1][..i] == batch[..i];
      }
      assert batch[..|batch|] == batch;
      if works {
        files := pending;
      }
      ok := works;
    }

    method UpdateShareMeta(title: string, fileSize: int, works: bool) returns (ok: bool)
      modifies this`meta
      ensures ok == works
      ensures meta == if works then Some(Meta(title, fileSize)) else old(meta)
    {
      if works {
        meta := Some(Meta(title, fileSize));
      }
      ok := works;
    }
  }

  method FilterIndexableFiles(r: Remote, files: seq<StoredRow>) returns (out: seq<StoredRow>)
    ensures out == Filtered(r, files)
  {
    out := [];
    for i := 0 to |files|
      invariant out == Filtered(r, files[..i])
    {
      assert files[..i + 1][..i] == files[..i];
      if files[i].row.node.isDir || r.media(files[i].row.node.ext) {
        out := out + [files[i]];
      }
    }
    assert files[..|files|] == files;
  }

  /** The in-memory form of the active directory: an empty id stands for none. */
  function ActiveCursor(cid: Cid, depth: nat, offset: nat): Cursor {
    if cid != "" then At(Task(cid, depth), offset) else Idle
  }

  /** The two per-call latches of CrawlShare. */
  datatype Flags = Flags(dedupChecked: bool, metaPersisted: bool)

  /** Title and size are written with the first page, for a share that had no title. */
  predicate MetaDue(r: Remote, log: seq<Fetch>, shareTitle: string) {
    log != [] && shareTitle == "" && r.shareTitle != ""
  }

  function FlagsAfter(r: Remote, log: seq<Fetch>, shareTitle: string): Flags {
    Flags(log != [], MetaDue(r, log, shareTitle))
  }

  function MetaAfter(r: Remote, meta0: Option<Meta>, log: seq<Fetch>, shareTitle: string): Option<Meta> {
    if MetaDue(r, log, shareTitle) then Some(Meta(r.shareTitle, r.fileSize)) else meta0
  }

  /** What a call started with: the data and metadata it found, the time it stamps rows with, and its setting. */
  datatype Origin = Origin(d0: Durable, files0: FileTable, meta0: Option<Meta>, at: int, setting: Setting)

  /** Where a call stands: in state `st` after `n` steps, of the `end` at which its run is done. */
  datatype Call = Call(origin: Origin, end: nat, st: State, n: nat)
  {
    /** The same call, elsewhere. */
    ghost predicate Same(that: Call) {
      origin == that.origin && end == that.end
    }
  }

  /** What the rest of a call may rely on; `log` are the pages it fetched. */
  ghost predicate Running(r: Remote, origin: Origin, files: FileTable, meta: Option<Meta>, log: seq<Fetch>,
                          flags: Flags)
  {
    && (log == [] ==> files == origin.files0)
    && flags == FlagsAfter(r, log, origin.setting.title)
    && meta == MetaAfter(r, origin.meta0, log, origin.setting.title)
    && StampedOrKept(origin.files0, files, origin.at)
  }

  /**
   How a call ends, besides crawling: a duplicate writes no file; title and size are written at
   most once, and by every call that drains if they are due.
   */
  ghost predicate StopOk(r: Remote, origin: Origin, files: FileTable, meta: Option<Meta>, log: seq<Fetch>,
                         outcome: Outcome)
  {
    && (outcome.Duplicate? ==> files == origin.files0)
    && (meta == MetaAfter(r, origin.meta0, log, origin.setting.title) || (meta == origin.meta0 && !outcome.Drained?))
    && StampedOrKept(origin.files0, files, origin.at)
  }

  /** The call's steps so far lead to where it stands and fetch `log`. */
  ghost predicate OnCall(r: Remote, call: Call, log: seq<Fetch>) {
    match call
    case Call(origin, end, st, n) =>
      && st == After(r, Resume(origin.d0), n)
      && log == Log(r, Resume(origin.d0), n)
      && Done(After(r, Resume(origin.d0), end))
      && n <= end
      && origin.setting.remote == r
      && ClearTo(origin.setting, origin.d0, n)
  }

  lemma BeginCall(r: Remote, origin: Origin) returns (call: Call)
    requires origin.setting.remote == r
    ensures call == Call(origin, call.end, Resume(origin.d0), 0) && OnCall(r, call, [])
  {
    var end := Terminates(r, Resume(origin.d0));
    call := Call(origin, end, Resume(origin.d0), 0);
  }

  /** The call stands where it says, having fetched `log`, with these tables and latches. */
  ghost predicate Underway(r: Remote, call: Call, files: FileTable, meta: Option<Meta>, log: seq<Fetch>, flags: Flags) {
    match call
    case Call(origin, _, _, _) => OnCall(r, call, log) && Running(r, origin, files, meta, log, flags)
  }

  /** The call stopped at step `n`, as its answers say, having fetched `log`, with these tables. */
  ghost predicate Halted(r: Remote, origin: Origin, files: FileTable, meta: Option<Meta>, log: seq<Fetch>,
                         outcome: Outcome, n: nat)
  {
    match origin
    case Origin(d0, _, _, _, setting) =>
      EndsAt(setting, d0, outcome, log, n) && !outcome.Drained? && StopOk(r, origin, files, meta, log, outcome)
  }

  lemma StepsLeft(r: Remote, call: Call, files: FileTable, meta: Option<Meta>, log: seq<Fetch>, flags: Flags)
    requires Underway(r, call, files, meta, log, flags)
    ensures call.n <= call.end
  {
  }

  function Onward(r: Remote, call: Call): Call {
    call.(st := Next(r, call.st), n := call.n + 1)
  }

  lemma OnCallNext(r: Remote, call: Call, log: seq<Fetch>)
    requires OnCall(r, call, log) && !Done(call.st)
    requires StepSignal(call.origin.setting, call.st, call.n, |log|) == Proceed
    ensures OnCall(r, Onward(r, call), log + FetchOf(call.st))
  {
    AfterNext(r, Resume(call.origin.d0), call.n);
    ClearNext(call.origin.setting, call.origin.d0, call.n);
    assert call.n != call.end;
  }

  lemma OnCallPop(r: Remote, call: Call, log: seq<Fetch>)
    requires OnCall(r, call, log) && call.st.active.Idle? && call.st.queue != []
    requires call.origin.setting.answers.turns(call.n).alive
    ensures Onward(r, call) == call.(st := Pop(call.st), n := call.n + 1) && OnCall(r, Onward(r, call), log)
  {
    OnCallNext(r, call, log);
    assert log + [] == log;
  }

  lemma FinishCall(r: Remote, call: Call, d1: Durable, log: seq<Fetch>)
    requires OnCall(r, call, log) && Done(call.st) && d1 == Finished(call.st)
    ensures Completed(r, call.origin.d0, d1, log)
  {
  }

  /** A step that stops the call ends it as the answers say. */
  lemma StopsHere(r: Remote, call: Call, log: seq<Fetch>, fetched: seq<Fetch>, outcome: Outcome)
    requires OnCall(r, call, log) && !Done(call.st)
    requires StepSignal(call.origin.setting, call.st, call.n, |log|) == Stop(outcome)
    requires fetched == StepFetch(call.origin.setting, call.st, call.n)
    ensures EndsAt(call.origin.setting, call.origin.d0, outcome, log + fetched, call.n) && !outcome.Drained?
  {
  }

  /** What a page leaves behind is something an interrupted call may leave behind. */
  lemma OnCallStop(r: Remote, call: Call, d: Durable, d1: Durable, log: seq<Fetch>, fetched: seq<Fetch>)
    requires OnCall(r, call, log) && call.st.active.At? && Interrupted(r, call.origin.d0, d, log)
    requires (fetched == [] && d1 == d) || AroundPage(r, call.st, d1, fetched)
    ensures Interrupted(r, call.origin.d0, d1, log + fetched)
  {
    assert log + [] == log;
    if AroundPage(r, call.st, d1, fetched) {
      assert StoppedAt(r, call.origin.d0, d1, log + fetched, call.n);
    }
  }

  class Crawler {
    const remote: Remote
    const retryCount: nat
    const dedupeMinFileSize: int
    const store: CrawlStore

    constructor (remote: Remote, retryCount: int, dedupeMinFileSize: int, store: CrawlStore)
      ensures this.remote == remote && this.store == store && this.dedupeMinFileSize == dedupeMinFileSize
      ensures this.retryCount == if retryCount <= 0 then 2 else retryCount
    {
      this.remote := remote;
      this.retryCount := if retryCount <= 0 then 2 else retryCount;
      this.dedupeMinFileSize := dedupeMinFileSize;
      this.store := store;
    }

    method ListPage(cid: Cid, offset: nat, reply: PageReply) returns (page: Result<Page, CrawlError>)
      ensures page == if reply.Served? then Ok(remote.PageAt(cid, offset)) else Err(reply.error)
    {
      page := if reply.Served? then Ok(remote.PageAt(cid, offset)) else Err(reply.error);
    }

    /** Retries a page; gives up at once on an error not worth retrying. */
    method FetchPage(cid: Cid, offset: nat, replies: nat -> PageReply)
      returns (page: Result<Page, CrawlError>, attempts: nat)
      ensures 1 <= attempts <= retryCount + 1
      ensures forall i: nat :: i < attempts - 1 ==>
                replies(i).Refused?
                && (replies(i).error.Retryable? || replies(i).error.EmptyData? || replies(i).error.ProxyFailure?)
      ensures var last := replies(attempts - 1);
              if last.Served? then page == Ok(remote.PageAt(cid, offset))
              else
                && page == Err(last.error)
                && (attempts == retryCount + 1 || last.error.DeadShare? || last.error.OtherError?)
      ensures page == if Decided(replies, retryCount, 0).Served?
                      then Ok(remote.PageAt(cid, offset))
                      else Err(Decided(replies, retryCount, 0).error)
    {
      attempts := 0;
      while true
        invariant attempts <= retryCount
        invariant forall i: nat :: i < attempts ==> replies(i).Refused? && PageRetryable(replies(i).error)
        invariant Decided(replies, retryCount, 0) == Decided(replies, retryCount, attempts)
        decreases retryCount - attempts
      {
        page := ListPage(cid, offset, replies(attempts));
        attempts := attempts + 1;
        if page.Ok? || !PageRetryable(page.error) || attempts == retryCount + 1 {
          return;
        }
      }
    }

    /** The ghost setting is the one the crawler and the call's parameters make. */
    ghost predicate SetFor(setting: Setting, title: string, answers: Answers)
    {
      setting == Setting(remote, retryCount, dedupeMinFileSize, title, answers)
    }

    /**
     The first half of the page loop's body: checkpoint, fetch, duplicate gate, share
     metadata. No file is written.
     */
    method OpenPage(task: Task, offset: nat, queue: seq<Task>, visited: set<Cid>, title: string, answers: Answers,
                    turn: Turn, flags: Flags, ghost call: Call, ghost log: seq<Fetch>)
      returns (signal: Signal, page: Page, flags': Flags, fetched: seq<Fetch>)
      requires SetFor(call.origin.setting, title, answers)
      requires Running(remote, call.origin, store.files, store.meta, log, flags)
      modifies store`checkpoint, store`meta
      ensures signal == OpenSignal(call.origin.setting, turn, |log|)
      ensures fetched == if Fetches(call.origin.setting, turn) then [Fetch(task.cid, task.depth, offset)] else []
      ensures (store.checkpoint == old(store.checkpoint) && fetched == [])
              || store.checkpoint == Some(Checkpoint(task.cid, offset, task.depth, queue, visited))
      ensures signal.Proceed? ==> page == remote.PageAt(task.cid, offset)
      ensures signal.Stop? ==> StopOk(remote, call.origin, store.files, store.meta, log + fetched, signal.outcome)
      ensures signal.Proceed? ==> Running(remote, call.origin, store.files, store.meta, log + fetched, flags')
    {
      signal, page, flags', fetched := Proceed, Page([], false, "", 0), flags, [];
      assert log + [] == log;
      var saved := store.SaveCheckpoint(Checkpoint(task.cid, offset, task.depth, queue, visited), turn.saved);
      if !saved { signal := Stop(Failed(OtherError)); return; }
      var listed, attempts := FetchPage(task.cid, offset, turn.replies);
      if listed.Err? { signal := Stop(Failed(listed.error)); return; }
      page := listed.value;
      fetched := [Fetch(task.cid, task.depth, offset)];
      if !flags'.dedupChecked {
        flags' := flags'.(dedupChecked := true);
        if dedupeMinFileSize > 0 && page.fileSize >= dedupeMinFileSize {
          var found := answers.duplicate;
          if found.QueryFailed? { signal := Stop(Failed(found.error)); return; }
          if found.DuplicateOf? { signal := Stop(Duplicate(found.canonical)); return; }
        }
      }
      if !flags'.metaPersisted && page.shareTitle != "" && title == "" {
        var ok := store.UpdateShareMeta(page.shareTitle, page.fileSize, turn.described);
        if !ok { signal := Stop(Failed(OtherError)); return; }
        flags' := flags'.(metaPersisted := true);
      }
    }

    /** The second half: store the page's rows, queue its directories, checkpoint past it. */
    method StorePage(task: Task, offset: nat, page: Page, queue: seq<Task>, visited: set<Cid>, at: int, turn: Turn,
                     ghost files0: FileTable)
      returns (ok: bool, queue': seq<Task>, visited': set<Cid>)
      requires StampedOrKept(files0, store.files, at)
      modifies store`checkpoint, store`files
      ensures ok == (turn.stored && turn.advanced)
      ensures StampedOrKept(files0, store.files, at)
      ensures queue' == queue + DirTasks(page.nodes, task.depth + 1)
      ensures visited' == if page.hasMore then visited else visited + {task.cid}
      ensures Strip(store.files) == old(Strip(store.files)) + PageRows(remote, page.nodes, task.cid, task.depth + 1)
              || (!ok && store.files == old(store.files) && store.checkpoint == old(store.checkpoint))
      ensures store.checkpoint == old(store.checkpoint)
              || store.checkpoint == Some(Checkpoint(task.cid, offset + remote.pageSize, task.depth, queue', visited'))
      ensures ok ==>
                store.checkpoint == Some(Checkpoint(task.cid, offset + remote.pageSize, task.depth, queue', visited'))
    {
      var stamped := Stamped(page.nodes, task.cid, task.depth + 1, at);
      var filtered := FilterIndexableFiles(remote, stamped);
      UpsertAddsPageRows(remote, store.files, page.nodes, task.cid, task.depth + 1, at);
      UpsertStamps(remote, files0, store.files, stamped, at);
      queue' := EnqueueDirs(queue, page.nodes, task.depth + 1);
      visited' := if page.hasMore then visited else visited + {task.cid};
      ok := store.UpsertFiles(filtered, turn.stored);
      if ok {
        var behind := Checkpoint(task.cid, offset + remote.pageSize, task.depth, queue', visited');
        ok := store.SaveCheckpoint(behind, turn.advanced);
      }
    }

    /** The body of the page loop, told as one step of the run: `more` says whether the directory has another page. */
    method CrawlPage(task: Task, offset: nat, queue: seq<Task>, visited: set<Cid>, title: string, at: int,
                     answers: Answers, turn: Turn, flags: Flags, ghost call: Call, ghost log: seq<Fetch>)
      returns (signal: Signal, more: bool, queue': seq<Task>, visited': set<Cid>, flags': Flags, fetched: seq<Fetch>)
      requires SetFor(call.origin.setting, title, answers) && call.origin.at == at
      requires call.st == State(At(task, offset), queue, visited, Strip(store.files))
      requires Running(remote, call.origin, store.files, store.meta, log, flags)
      modifies store
      ensures signal == PageSignal(call.origin.setting, turn, remote.PageAt(task.cid, offset), |log|)
      ensures fetched == if Fetches(call.origin.setting, turn) then FetchOf(call.st) else []
      ensures || (signal.Stop? && fetched == [] && store.Content() == old(store.Content()))
              || AroundPage(remote, call.st, store.Content(), fetched)
      ensures signal.Proceed? ==>
                && Next(remote, call.st)
                   == State(if more then At(task, offset + remote.pageSize) else Idle, queue', visited',
                       Strip(store.files))
                && Running(remote, call.origin, store.files, store.meta, log + fetched, flags')
      ensures signal.Stop? ==> StopOk(remote, call.origin, store.files, store.meta, log + fetched, signal.outcome)
    {
      var page;
      signal, page, flags', fetched := OpenPage(task, offset, queue, visited, title, answers, turn, flags, call, log);
      more, queue', visited' := page.hasMore, queue, visited;
      if signal.Stop? { return; }
      if page.nodes == [] && !page.hasMore {
        visited' := visited + {task.cid};
      } else {
        var ok;
        ok, queue', visited' := StorePage(task, offset, page, queue, visited, at, turn, call.origin.files0);
        if !ok { signal := Stop(Failed(OtherError)); }
      }
    }

    /** One turn of the page loop, told as a step of its call: context, pause check, and the page. */
    method CrawlNextPage(task: Task, offset: nat, queue: seq<Task>, visited: set<Cid>, title: string, at: int,
                         answers: Answers, n: nat, flags: Flags, log: seq<Fetch>, ghost call: Call)
      returns (signal: Signal, more: bool, queue': seq<Task>, visited': set<Cid>, flags': Flags, log': seq<Fetch>,
               ghost call': Call)
      requires SetFor(call.origin.setting, title, answers) && call.origin.at == at && call.n == n
      requires n == 0 ==> answers.turns(0).alive
      requires call.st == State(At(task, offset), queue, visited, Strip(store.files))
      requires Underway(remote, call, store.files, store.meta, log, flags)
      requires Interrupted(remote, call.origin.d0, store.Content(), log)
      modifies store
      ensures Interrupted(remote, call.origin.d0, store.Content(), log') && call.Same(call')
      ensures signal.Proceed? ==>
                && call'.n == n + 1 <= call.end
                && call'.st == State(if more then At(task, offset + remote.pageSize) else Idle, queue', visited',
                       Strip(store.files))
                && Underway(remote, call', store.files, store.meta, log', flags')
      ensures signal.Stop? ==> Halted(remote, call.origin, store.files, store.meta, log', signal.outcome, n)
    {
      var turn := answers.turns(n);
      more, queue', visited', flags', log', call' := true, queue, visited, flags, log, call;
      if !turn.pageAlive || turn.paused {
        signal := Stop(if !turn.pageAlive then Failed(OtherError) else Outcome.Paused);
        assert log + [] == log;
        StopsHere(remote, call, log, [], signal.outcome);
        return;
      }
      ghost var d := store.Content();
      var fetched;
      signal, more, queue', visited', flags', fetched :=
        CrawlPage(task, offset, queue, visited, title, at, answers, turn, flags, call, log);
      log' := log + fetched;
      assert Interrupted(remote, call.origin.d0, store.Content(), log') by {
        OnCallStop(remote, call, d, store.Content(), log, fetched);
      }
      if signal.Proceed? {
        call' := Onward(remote, call);
        assert OnCall(remote, call', log') by {
          OnCallNext(remote, call, log);
        }
        StepsLeft(remote, call', store.files, store.meta, log', flags');
      } else {
        StopsHere(remote, call, log, fetched, signal.outcome);
      }
    }

    /** The page loop: one directory, from `offset` on; `call'` is where the call stands after it. */
    method CrawlDirectory(task: Task, offset: nat, queue: seq<Task>, visited: set<Cid>, title: string, at: int,
                          answers: Answers, n: nat, flags: Flags, log: seq<Fetch>, ghost call: Call)
      returns (signal: Signal, queue': seq<Task>, visited': set<Cid>, n': nat, flags': Flags, log': seq<Fetch>,
               ghost call': Call)
      requires SetFor(call.origin.setting, title, answers) && call.origin.at == at && call.n == n
      requires n == 0 ==> answers.turns(0).alive
      requires call.st == State(At(task, offset), queue, visited, Strip(store.files))
      requires Underway(remote, call, store.files, store.meta, log, flags)
      requires Interrupted(remote, call.origin.d0, store.Content(), log)
      modifies store
      ensures Interrupted(remote, call.origin.d0, store.Content(), log') && call.Same(call')
      ensures signal.Proceed? ==>
                && n < n' == call'.n
                && call'.st == State(Idle, queue', visited', Strip(store.files))
                && Underway(remote, call', store.files, store.meta, log', flags')
      ensures signal.Stop? ==> Halted(remote, call.origin, store.files, store.meta, log', signal.outcome, n')
    {
      queue', visited', n', flags', log', call', signal := queue, visited, n, flags, log, call, Proceed;
      var here: nat, more := offset, true;
      StepsLeft(remote, call, store.files, store.meta, log, flags);
      while signal.Proceed? && more
        invariant Interrupted(remote, call.origin.d0, store.Content(), log') && call.Same(call')
        invariant signal.Proceed? ==>
                    && n <= n' == call'.n <= call.end && (more || n < n')
                    && (n' == 0 ==> answers.turns(0).alive)
                    && call'.st == State(if more then At(task, here) else Idle, queue', visited', Strip(store.files))
                    && Underway(remote, call', store.files, store.meta, log', flags')
        invariant signal.Stop? ==> Halted(remote, call.origin, store.files, store.meta, log', signal.outcome, n')
        decreases if signal.Proceed? then 1 else 0, call.end - call'.n
      {
        signal, more, queue', visited', flags', log', call' :=
          CrawlNextPage(task, here, queue', visited', title, at, answers, n', flags', log', call');
        here := here + remote.pageSize;
        if signal.Proceed? {
          n' := n' + 1;
          assert call'.st.active == if more then At(task, here) else Idle;
        }
      }
    }

    /**
     Load the checkpoint and take up its active directory, unless that is done; start at the root
     when nothing is left.
     */
    method Begin(works: bool)
      returns (ok: bool, queue: seq<Task>, visited: set<Cid>, activeCID: Cid, activeDepth: nat, activeOffset: nat)
      ensures ok == works
      ensures ok ==>
                Resume(store.Content())
                == State(ActiveCursor(activeCID, activeDepth, activeOffset), queue, visited, Strip(store.files))
    {
      queue, visited := [], {};
      activeCID, activeOffset, activeDepth := "", 0, 0;
      var loaded := store.LoadCheckpoint(works);
      ok := loaded.Ok?;
      if !ok { return; }
      if loaded.value.Some? {
        var cp := loaded.value.value;
        queue, visited := cp.queue, cp.visited;
        if cp.cid != "" && cp.cid !in cp.visited {
          activeCID, activeOffset, activeDepth := cp.cid, cp.nextOffset, cp.activeDepth;
        }
      }
      if queue == [] && activeCID == "" {
        queue := [Task(ROOT_CID, 0)];
      }
    }

    /** The resumed directory if there is one, otherwise the head of the queue. */
    method NextTask(activeCID: Cid, activeDepth: nat, activeOffset: nat, queue: seq<Task>, visited: set<Cid>, n: nat,
                    ghost call: Call, ghost log: seq<Fetch>)
      returns (task: Task, offset: nat, queue': seq<Task>, n': nat, ghost call': Call)
      requires activeCID != "" || queue != []
      requires OnCall(remote, call, log) && Fresh(call.st) && call.n == n
      requires call.origin.setting.answers.turns(n).alive
      requires call.st == State(ActiveCursor(activeCID, activeDepth, activeOffset), queue, visited, call.st.rows)
      ensures OnCall(remote, call', log) && call.Same(call') && n' == call'.n
      ensures call'.st == State(if task.cid in visited then Idle else At(task, offset), queue', visited, call.st.rows)
      ensures n < n' || (n == n' && task.cid !in visited)
    {
      if activeCID != "" {
        return Task(activeCID, activeDepth), activeOffset, queue, n, call;
      }
      OnCallPop(remote, call, log);
      return queue[0], 0, queue[1..], n + 1, Onward(remote, call);
    }

    /**
     One crawl call. The answers decide how it ends. Whatever fails, the database is left in a state
     the uninterrupted crawl passes through, up to the rows of the page in flight; without a failure
     it is left finished. `log` lists the pages fetched.
     */
    method CrawlShare(title: string, crawledAt: int, answers: Answers) returns (outcome: Outcome, log: seq<Fetch>)
      modifies store
      ensures Ends(Setting(remote, retryCount, dedupeMinFileSize, title, answers), old(store.Content()), outcome, log)
      ensures outcome.Drained? ==> Completed(remote, old(store.Content()), store.Content(), log)
      ensures !outcome.Drained? ==> Interrupted(remote, old(store.Content()), store.Content(), log)
      ensures var setting := Setting(remote, retryCount, dedupeMinFileSize, title, answers);
              var origin := Origin(old(store.Content()), old(store.files), old(store.meta), crawledAt, setting);
              StopOk(remote, origin, store.files, store.meta, log, outcome)
    {
      log := [];
      var flags := Flags(false, false);
      var ok, queue, visited, activeCID, activeDepth, activeOffset := Begin(answers.loaded);
      if !ok {
        return Failed(OtherError), log;
      }
      ghost var setting := Setting(remote, retryCount, dedupeMinFileSize, title, answers);
      ghost var call := BeginCall(remote, Origin(store.Content(), store.files, store.meta, crawledAt, setting));
      ghost var origin := call.origin;
      var n: nat, signal := 0, Proceed;
      while signal.Proceed? && (activeCID != "" || queue != [])
        invariant Interrupted(remote, origin.d0, store.Content(), log) && call.origin == origin
        invariant signal.Proceed? ==>
                    && call.st == State(ActiveCursor(activeCID, activeDepth, activeOffset), queue, visited,
                        Strip(store.files))
                    && Underway(remote, call, store.files, store.meta, log, flags)
                    && Fresh(call.st)
                    && n == call.n
                    && (activeCID != "" ==> n == 0)
        invariant signal.Stop? ==> Halted(remote, origin, store.files, store.meta, log, signal.outcome, n)
        invariant call.n <= call.end
        decreases if signal.Proceed? then 1 else 0, call.end - call.n
      {
        if !answers.turns(n).alive {
          signal := Stop(Failed(OtherError));
          assert log + [] == log;
          StopsHere(remote, call, log, [], signal.outcome);
          continue;
        }
        ghost var before := call;
        var task, offset;
        task, offset, queue, n, call := NextTask(activeCID, activeDepth, activeOffset, queue, visited, n, call, log);
        activeCID, activeOffset := "", 0;
        if task.cid !in visited {
          signal, queue, visited, n, flags, log, call :=
            CrawlDirectory(task, offset, queue, visited, title, crawledAt, answers, n, flags, log, call);
          if signal.Stop? {
            call := before;
          }
        }
      }
      if signal.Stop? {
        return signal.outcome, log;
      }
      ok := store.SaveCheckpoint(Checkpoint(ROOT_CID, 0, 0, [], visited), answers.finished);
      outcome := if ok then Drained else Failed(OtherError);
      assert EndsAt(setting, origin.d0, outcome, log, n);
      if ok {
        assert Completed(remote, origin.d0, store.Content(), log) by {
          FinishCall(remote, call, store.Content(), log);
        }
      }
    }

    method EnqueueDirs(queue: seq<Task>, nodes: seq<Node>, depth: nat) returns (longer: seq<Task>)
      ensures longer == queue + DirTasks(nodes, depth)
    {
      longer := queue;
      for i := 0 to |nodes|
        invariant longer == queue + DirTasks(nodes[..i], depth)
      {
        assert nodes[..i + 1][..i] == nodes[..i];
        if nodes[i].isDir {
          longer := longer + [Task(nodes[i].id, depth)];
        }
      }
      assert nodes[..|nodes|] == nodes;
    }
  }
}
