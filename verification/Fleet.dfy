/**
 The share table, the crawled data and the scheduler's cycle over them, as a machine
 whose steps are single store calls. Administrative calls come in between at any point.
 */
module Fleet {
  import opened Basics
  import opened Snapshots
  import opened Checkpoints
  import opened CrawlRun
  import opened Shares
  import opened Lifecycle
  import opened Crawler
  import opened CrawlAnswers

  /**
   A crawl being handled: the row it was listed with and those still to do; what it goes on from,
   namely its own place in the share, kept in memory, with the rows stored by now; whether it has
   stored rows itself; and whether it has saved its final checkpoint.
   */
  datatype Job = Job(listed: Share, todo: seq<Share>, pos: Durable, wrote: bool, drained: bool)

  /** Where RunOnce is. */
  datatype Phase =
    | Resting
    | Between(todo: seq<Share>)
    | Crawling(job: Job)
    | Checking(job: Job, outcome: Outcome)
    | Purging(job: Job, outcome: Outcome)
    | Recording(job: Job, outcome: Outcome)
    | Updating(job: Job, outcome: Outcome, failures: nat)

  datatype World = World(shares: seq<Share>, data: map<string, Durable>, nextId: nat, phase: Phase)

  datatype Event =
    // administrative calls
    | Upsert(code: string, receive: string)
    | Delete(code: string)
    | Reactivate(code: string)
    | Describe(code: string, receive: string, title: string, fileSize: int)
    | Retitle(code: string, title: string)
    | DropDuplicate(code: string, canonical: string)
    // the scheduler's cycle
    | List(now: int)
    | Begin(listed: Share)
    | Write(d: Durable, pos: Durable)
    | Drain(d: Durable)
    | Return(outcome: Outcome)
    | Check
    | Purge
    | MarkCrawled(at: int)
    | MarkDead
    | MarkDuplicate
    | Shelve(at: int)
    | ReadFailures
    | WriteFailure(at: int)
    | Rename(code: string, title: string)
    | Pause
    | Rest
    | Abort

  /** What each share's snapshot is. */
  type Library = string -> Remote

  // ----- parts of a world -----

  predicate InFlight(p: Phase) {
    !p.Resting? && !p.Between?
  }

  predicate Handling(p: Phase, code: string) {
    InFlight(p) && p.job.listed.code == code
  }

  /** The rows as they were listed, of the shares whose outcome is still to be recorded. */
  function Listed(p: Phase): seq<Share> {
    if p.Resting? then [] else if p.Between? then p.todo else [p.job.listed] + p.job.todo
  }

  function DataOf(w: World, code: string): Durable {
    if code in w.data then w.data[code] else UNTOUCHED
  }

  predicate HasPair(shares: seq<Share>, code: string, receive: string) {
    exists i :: 0 <= i < |shares| && shares[i].code == code && shares[i].receiveCode == receive
  }

  /** `GetShare`: the newest row of the code. */
  function Failures(shares: seq<Share>, code: string): nat
    requires HasCode(shares, code)
  {
    var last := |shares| - 1;
    if shares[last].code == code then shares[last].failureCount else Failures(shares[..last], code)
  }

  /** Row `i` has the code, and no later row does. */
  predicate Newest(shares: seq<Share>, code: string, i: nat) {
    i < |shares| && shares[i].code == code && forall j :: i < j < |shares| ==> shares[j].code != code
  }

  lemma {:induction false} FailuresNewest(shares: seq<Share>, code: string, i: nat)
    requires HasCode(shares, code) && Newest(shares, code, i)
    ensures Failures(shares, code) == shares[i].failureCount
  {
    var last := |shares| - 1;
    if i < last {
      assert shares[..last][i].code == code;
      FailuresNewest(shares[..last], code, i);
    }
  }

  function Without(shares: seq<Share>, code: string): seq<Share> {
    if shares == [] then []
    else
      var last := shares[|shares| - 1];
      Without(shares[..|shares| - 1], code) + (if last.code == code then [] else [last])
  }

  /** The crawl keeps its place in memory when its rows are deleted under it. */
  function Stripped(job: Job): Job {
    job.(pos := job.pos.(rows := map[]))
  }

  function Wrote(w: World, job: Job, d: Durable): bool {
    job.wrote || d.rows != DataOf(w, job.listed.code).rows
  }

  // ----- how RunOnce classifies an outcome -----

  /** Neither a success nor a dead share nor a duplicate. */
  predicate Unsettled(outcome: Outcome) {
    outcome.Paused? || (outcome.Failed? && !outcome.error.DeadShare?)
  }

  predicate IsEmptyData(outcome: Outcome) {
    outcome == Outcome.Failed(EmptyData)
  }

  predicate GivesUp(listed: Share, outcome: Outcome) {
    IsEmptyData(outcome) && listed.failureCount + 1 >= GIVE_UP_FAILURES
  }

  // ----- the steps -----

  /** The call is one that RunOnce, or an administrator, can make here. */
  predicate Ready(w: World, e: Event) {
    var p := w.phase;
    match e
    case Upsert(_, _) => true
    case Delete(_) => true
    case Reactivate(_) => true
    case Describe(_, _, _, _) => true
    case Retitle(_, _) => true
    case DropDuplicate(_, _) => true
    case List(_) => p.Resting?
    case Begin(listed) => p.Between? && p.todo != [] && p.todo[0] == listed
    case Write(_, _) => p.Crawling? && !p.job.drained
    case Drain(_) => p.Crawling? && !p.job.drained
    case Return(outcome) => p.Crawling? && (outcome.Drained? <==> p.job.drained)
        && (outcome.Duplicate? ==> !p.job.wrote)
    case Check => p.Checking?
    case Purge => p.Purging?
    case MarkCrawled(_) => p.Recording? && p.outcome.Drained?
    case MarkDead => p.Recording? && p.outcome == Outcome.Failed(DeadShare)
    case MarkDuplicate => p.Recording? && p.outcome.Duplicate?
    case Shelve(_) => p.Recording? && GivesUp(p.job.listed, p.outcome)
    case ReadFailures => p.Recording? && Unsettled(p.outcome) && !GivesUp(p.job.listed, p.outcome)
    case WriteFailure(_) => p.Updating?
    case Rename(_, _) => p.Between? && p.todo == []
    case Pause => p.Between? || (p.Recording? && Unsettled(p.outcome))
    case Rest => p.Between? && p.todo == []
    case Abort => true
  }

  /** The call inserts a row. */
  predicate Creates(w: World, e: Event) {
    (e.Upsert? || e.Describe?) && !HasPair(w.shares, e.code, e.receive)
  }

  function Created(w: World, e: Event): Share
    requires Creates(w, e)
  {
    NewRow(w.nextId, e.code, e.receive, if e.Describe? then e.title else "", if e.Describe? then e.fileSize else 0)
  }

  /** What the call makes of a row that stays. */
  function Rewritten(p: Phase, e: Event, s: Share): Share {
    match e
    case Upsert(code, receive) => if s.code == code && s.receiveCode == receive then Registered(s) else s
    case Reactivate(code) => if s.code == code then Reactivated(s) else s
    case Describe(code, receive, title, fileSize) =>
      if s.code == code && s.receiveCode == receive then Described(s, title, fileSize) else s
    case Retitle(code, title) => if s.code == code then s.(title := title) else s
    case Rename(code, title) => if s.code == code then s.(title := title) else s
    case DropDuplicate(code, canonical) => if s.code == code then MarkedDuplicate(s, canonical) else s
    case MarkCrawled(at) => if Handling(p, s.code) then Crawled(s, at) else s
    case MarkDead => if Handling(p, s.code) then Died(s) else s
    case MarkDuplicate =>
      if p.Recording? && p.outcome.Duplicate? && Handling(p, s.code) then MarkedDuplicate(s, p.outcome.canonical) else s
    case Shelve(at) => if Handling(p, s.code) then Shelved(s, at) else s
    case WriteFailure(at) => if p.Updating? && Handling(p, s.code) then SetBack(s, p.failures + 1, at) else s
    case _ => s
  }

  function SharesAfter(w: World, e: Event): seq<Share> {
    if e.Delete? then Without(w.shares, e.code)
    else if Creates(w, e) then w.shares + [Created(w, e)]
    else seq(|w.shares|, i requires 0 <= i < |w.shares| => Rewritten(w.phase, e, w.shares[i]))
  }

  function DataAfter(w: World, e: Event): map<string, Durable> {
    match e
    case Delete(code) => w.data - {code}
    case DropDuplicate(code, _) => w.data[code := DataOf(w, code).(rows := map[])]
    case Write(d, _) => if w.phase.Crawling? then w.data[w.phase.job.listed.code := d] else w.data
    case Drain(d) => if w.phase.Crawling? then w.data[w.phase.job.listed.code := d] else w.data
    case Purge => if w.phase.Purging? then w.data - {w.phase.job.listed.code} else w.data
    case _ => w.data
  }

  function PhaseAfter(w: World, e: Event): Phase
    requires Ready(w, e)
  {
    var p := w.phase;
    match e
    case Delete(code) => if Handling(p, code) then p.(job := Stripped(p.job)) else p
    case DropDuplicate(code, _) => if Handling(p, code) then p.(job := Stripped(p.job)) else p
    case List(now) => Between(Listing(w.shares, now))
    case Begin(listed) => Crawling(Job(listed, p.todo[1..], DataOf(w, listed.code), false, false))
    case Write(d, pos) => Crawling(p.job.(pos := pos, wrote := Wrote(w, p.job, d)))
    case Drain(d) => Crawling(p.job.(pos := d, wrote := Wrote(w, p.job, d), drained := true))
    case Return(outcome) => if outcome.Duplicate? then Recording(p.job, outcome) else Checking(p.job, outcome)
    case Check =>
      if HasCode(w.shares, p.job.listed.code) then Recording(p.job, p.outcome) else Purging(p.job, p.outcome)
    case Purge => Recording(Stripped(p.job), p.outcome)
    case MarkCrawled(_) => Between(p.job.todo)
    case MarkDead => Between(p.job.todo)
    case MarkDuplicate => Between(p.job.todo)
    case Shelve(_) => Between(p.job.todo)
    case ReadFailures =>
      if HasCode(w.shares, p.job.listed.code)
      then Updating(p.job, p.outcome, Failures(w.shares, p.job.listed.code))
      else Resting
    case WriteFailure(_) => Between(p.job.todo)
    case Pause => Resting
    case Rest => Resting
    case Abort => Resting
    case _ => p
  }

  /** One store call. A call that cannot be made here changes nothing. */
  function Step(w: World, e: Event): World {
    if Ready(w, e)
    then World(SharesAfter(w, e), DataAfter(w, e), w.nextId + (if Creates(w, e) then 1 else 0), PhaseAfter(w, e))
    else w
  }

  // ----- what a crawl writes -----

  /** The crawl has stored the rows of its next page, and goes on from behind it; no checkpoint was saved. */
  ghost predicate StoresPage(r: Remote, before: Durable, pos: Durable, d: Durable, pos': Durable) {
    var st := Resume(pos);
    && st.active.At?
    && d == before.(rows := Visit(r, st).rows)
    && pos' == Durable(Some(PostPage(r, st)), d.rows)
  }

  ghost predicate CrawlsTo(r: Remote, pos: Durable, d: Durable) {
    exists log :: Interrupted(r, pos, d, log)
  }

  ghost predicate DrainsTo(r: Remote, pos: Durable, d: Durable) {
    exists log :: Checkpoints.Completed(r, pos, d, log)
  }

  /**
   The crawl writes what CrawlShare writes: any number of its calls up to and including a
   checkpoint, or a page's rows alone; or its last calls. It finds its own place in memory, not in
   the checkpoint, which others may have deleted.
   */
  ghost predicate Faithful(lib: Library, w: World, e: Event) {
    match w.phase
    case Crawling(job) =>
      var r, before := lib(job.listed.code), DataOf(w, job.listed.code);
      && (e.Write? ==> (CrawlsTo(r, job.pos, e.d) && e.pos == e.d) || StoresPage(r, before, job.pos, e.d, e.pos))
      && (e.Drain? ==> DrainsTo(r, job.pos, e.d))
    case _ => true
  }

  // ----- runs -----

  function RunTo(w: World, es: seq<Event>): World {
    if es == [] then w else Step(RunTo(w, es[..|es| - 1]), es[|es| - 1])
  }

  /** The world before the event at `i`. */
  function At(w: World, es: seq<Event>, i: nat): World
    requires i <= |es|
  {
    RunTo(w, es[..i])
  }

  lemma AtNext(w: World, es: seq<Event>, i: nat)
    requires i < |es|
    ensures At(w, es, i + 1) == Step(At(w, es, i), es[i])
  {
    assert es[..i + 1][..i] == es[..i];
  }

  lemma AtEnd(w: World, es: seq<Event>)
    ensures At(w, es, |es|) == RunTo(w, es)
  {
    assert es[..|es|] == es;
  }

  ghost predicate Path(w: World, es: seq<Event>) {
    forall i :: 0 <= i < |es| ==> Ready(At(w, es, i), es[i])
  }

  lemma Extend(w: World, es: seq<Event>, e: Event)
    requires Path(w, es) && Ready(RunTo(w, es), e)
    ensures Path(w, es + [e]) && RunTo(w, es + [e]) == Step(RunTo(w, es), e)
  {
    var all := es + [e];
    assert all[..|es|] == es;
    forall i | 0 <= i < |all|
      ensures Ready(At(w, all, i), all[i])
    {
      if i < |es| {
        assert all[..i] == es[..i];
      }
    }
  }

  /** `es` is a run of the fleet from `w0` to `w` in which every crawl does what CrawlShare does. */
  ghost predicate OnTrace(lib: Library, w0: World, es: seq<Event>, w: World)
    decreases |es|
  {
    if es == [] then w == w0
    else exists v :: LastStep(lib, w0, es, v, w)
  }

  ghost predicate LastStep(lib: Library, w0: World, es: seq<Event>, v: World, w: World)
    requires es != []
    decreases |es|, 0
  {
    var n := |es| - 1;
    OnTrace(lib, w0, es[..n], v) && Ready(v, es[n]) && Faithful(lib, v, es[n]) && w == Step(v, es[n])
  }

  lemma TraceNext(lib: Library, w0: World, es: seq<Event>, w: World, e: Event)
    requires OnTrace(lib, w0, es, w) && Ready(w, e) && Faithful(lib, w, e)
    ensures OnTrace(lib, w0, es + [e], Step(w, e))
  {
    assert (es + [e])[..|es|] == es;
    assert LastStep(lib, w0, es + [e], w, Step(w, e));
  }

  /** A trace is a run as the theorems about runs take it. */
  lemma {:induction false} TraceIsRun(lib: Library, w0: World, es: seq<Event>, w: World)
    requires OnTrace(lib, w0, es, w)
    ensures Path(w0, es) && RunTo(w0, es) == w
    ensures forall i :: 0 <= i < |es| ==> Faithful(lib, At(w0, es, i), es[i])
    decreases |es|
  {
    if es != [] {
      var n := |es| - 1;
      var v :| LastStep(lib, w0, es, v, w);
      TraceIsRun(lib, w0, es[..n], v);
      assert es == es[..n] + [es[n]];
      Extend(w0, es[..n], es[n]);
      forall i | 0 <= i < |es|
        ensures Faithful(lib, At(w0, es, i), es[i])
      {
        if i < n {
          assert es[..n][..i] == es[..i];
        }
      }
    }
  }

  /** No row changes except as `Rewritten` says; the others are deleted or created. */
  lemma RowOrigin(w: World, e: Event, t: Share) returns (s: Share)
    requires t in Step(w, e).shares
    ensures || (Ready(w, e) && Creates(w, e) && t == Created(w, e))
            || (s in w.shares && s.code == t.code && t == (if Ready(w, e) then Rewritten(w.phase, e, s) else s)
                && (e.Delete? ==> s.code != e.code))
  {
    s := t;
    if !Ready(w, e) {
    } else if e.Delete? {
      WithoutExact(w.shares, e.code, t);
    } else if Creates(w, e) {
      if t in w.shares {
        CreatesRewritesNothing(w, e, t);
      }
    } else {
      var i :| 0 <= i < |w.shares| && t == SharesAfter(w, e)[i];
      s := w.shares[i];
    }
  }

  lemma CreatesRewritesNothing(w: World, e: Event, s: Share)
    requires Creates(w, e) && s in w.shares
    ensures Rewritten(w.phase, e, s) == s
  {
  }

  lemma {:induction false} WithoutExact(shares: seq<Share>, code: string, t: Share)
    ensures t in Without(shares, code) <==> t in shares && t.code != code
  {
    if shares != [] {
      WithoutExact(shares[..|shares| - 1], code, t);
      assert shares == shares[..|shares| - 1] + [shares[|shares| - 1]];
    }
  }

  lemma HasCodeIn(shares: seq<Share>, code: string)
    ensures HasCode(shares, code) <==> exists s :: s in shares && s.code == code
  {
    if HasCode(shares, code) {
      var i :| 0 <= i < |shares| && shares[i].code == code;
      assert shares[i] in shares;
    }
  }
}
