/** scheduler/scheduler.go: one cycle over the due shares, as calls on the store that others call too. */
module Scheduler {
  import opened Basics
  import opened Snapshots
  import opened Checkpoints
  import opened Shares
  import opened Backoff
  import opened Lifecycle
  import opened Crawler
  import opened CrawlAnswers
  import opened Fleet
  import CrawlRun
  import FleetComplete
  import Titles

  /** What the cycles of a daemon started on an empty database mark COMPLETED is complete, unless a call breaks it. */
  lemma CyclesCompleteSoundly(lib: Library, es: seq<Event>, w: World, s: Share)
    requires OnTrace(lib, FleetComplete.FOUNDED, es, w) && FleetComplete.NamedDirectories(lib)
    requires forall i :: 0 <= i < |es| ==> !FleetComplete.Breaks(lib, At(FleetComplete.FOUNDED, es, i), es[i])
    requires s in w.shares && s.status.Completed?
    ensures DataOf(w, s.code).rows == FleetComplete.WholeRows(lib, s.code)
  {
    TraceIsRun(lib, FleetComplete.FOUNDED, es, w);
    AtEnd(FleetComplete.FOUNDED, es);
    FleetComplete.CompletedIsSound(lib, es, |es|, s, "");
  }

  // ----- what a trace says of cycles -----

  /** The calls of a cycle that show what it did: the shares it took up, how their crawls ended, what it recorded. */
  predicate Noted(e: Event) {
    e.List? || e.Begin? || e.Return? || e.MarkCrawled? || e.MarkDead? || e.MarkDuplicate? || e.Shelve?
    || e.WriteFailure? || e.Rename?
  }

  function NoteOf(e: Event): seq<Event> {
    if Noted(e) then [e] else []
  }

  /** The noted calls of the latest cycle, from its listing on. */
  function CurrentCycle(es: seq<Event>): seq<Event> {
    if es == [] then []
    else
      var n := |es| - 1;
      (if es[n].List? then [] else CurrentCycle(es[..n])) + NoteOf(es[n])
  }

  /** The noted calls of each cycle that came to its end. */
  function FinishedCycles(es: seq<Event>): seq<seq<Event>> {
    if es == [] then []
    else
      var n := |es| - 1;
      FinishedCycles(es[..n]) + (if es[n].Rest? then [CurrentCycle(es[..n])] else [])
  }

  /** The noted calls of the latest cycle and of the finished ones. */
  datatype Book = Book(notes: seq<Event>, cycles: seq<seq<Event>>)

  function BookAfter(b: Book, e: Event): Book {
    Book((if e.List? then [] else b.notes) + NoteOf(e), b.cycles + (if e.Rest? then [b.notes] else []))
  }

  /** The book with more notes in the latest cycle. */
  function Noting(b: Book, notes: seq<Event>): Book {
    b.(notes := b.notes + notes)
  }

  lemma NoteOne(b: Book, e: Event)
    ensures !e.List? && !e.Rest? ==> BookAfter(b, e) == Noting(b, NoteOf(e))
  {
    assert b.cycles + [] == b.cycles;
  }

  /** `es` is a run of the fleet from `w0` to `w`, with crawls as CrawlShare makes them, and `b` its book. */
  ghost predicate OnBook(lib: Library, w0: World, es: seq<Event>, w: World, b: Book)
    decreases |es|
  {
    if es == [] then w == w0 && b == Book([], [])
    else exists v, a :: BookStep(lib, w0, es, v, a, w, b)
  }

  ghost predicate BookStep(lib: Library, w0: World, es: seq<Event>, v: World, a: Book, w: World, b: Book)
    requires es != []
    decreases |es|, 0
  {
    var n := |es| - 1;
    && OnBook(lib, w0, es[..n], v, a) && Ready(v, es[n]) && Faithful(lib, v, es[n])
    && w == Step(v, es[n]) && b == BookAfter(a, es[n])
  }

  lemma BookNext(lib: Library, w0: World, es: seq<Event>, w: World, b: Book, e: Event)
    requires OnBook(lib, w0, es, w, b) && Ready(w, e) && Faithful(lib, w, e)
    ensures OnBook(lib, w0, es + [e], Step(w, e), BookAfter(b, e))
  {
    assert (es + [e])[..|es|] == es;
    assert BookStep(lib, w0, es + [e], w, b, Step(w, e), BookAfter(b, e));
  }

  /** The book is kept: it says of the run what the run's own calls say. */
  lemma {:induction false} BookIsTrace(lib: Library, w0: World, es: seq<Event>, w: World, b: Book)
    requires OnBook(lib, w0, es, w, b)
    ensures OnTrace(lib, w0, es, w)
    ensures b == Book(CurrentCycle(es), FinishedCycles(es))
    decreases |es|
  {
    if es != [] {
      var n := |es| - 1;
      var v, a :| BookStep(lib, w0, es, v, a, w, b);
      BookIsTrace(lib, w0, es[..n], v, a);
      assert LastStep(lib, w0, es, v, w);
      assert FinishedCycles(es[..n]) + [] == FinishedCycles(es[..n]);
    }
  }

  // ----- what a cycle is answered -----

  /** The answers for one listed share: the pause gate, twice; the crawl's; the store calls that follow; the clock. */
  datatype ShareTurn = ShareTurn(
    paused: bool,
    crawl: Answers,
    looked: bool,         // the purge's look
    purged: bool,         // its deletes
    stillPaused: bool,
    recorded: bool,       // the call that marks the share, or reads its failures
    updated: bool,        // the update after that
    clock: int)

  /** The answers for a cycle: its listing; share by share; the look at all titles, and each rename. */
  datatype CycleAnswers = CycleAnswers(listed: bool, turns: nat -> ShareTurn, surveyed: bool, renamed: nat -> bool)

  /** A turn of the daemon's loop: the pause gate, the clock, and the cycle if there is one. */
  datatype LoopTurn = LoopTurn(paused: bool, now: int, cycle: CycleAnswers)

  datatype LoopResult = Parked | Ran(result: CycleResult)

  /** The call that records an outcome. */
  function RecordedAs(listed: Share, outcome: Outcome, now: int, clock: int): Event {
    match outcome
    case Drained => MarkCrawled(now)
    case Duplicate(_) => MarkDuplicate
    case Paused => WriteFailure(clock)
    case Failed(error) =>
      if error.DeadShare? then MarkDead
      else if error.EmptyData? && listed.failureCount + 1 >= 4 then Shelve(clock)
      else WriteFailure(clock)
  }

  /** What a cycle does with a share it gets through: take it up, crawl it, record how that ended. */
  function Entry(listed: Share, outcome: Outcome, now: int, clock: int): seq<Event> {
    [Begin(listed), Return(outcome), RecordedAs(listed, outcome, now, clock)]
  }

  function Ledger(listing: seq<Share>, outcomes: seq<Outcome>, now: int, turns: nat -> ShareTurn, k: nat): seq<Event>
    requires k <= |listing| && k <= |outcomes|
  {
    if k == 0 then []
    else Ledger(listing, outcomes, now, turns, k - 1) + Entry(listing[k - 1], outcomes[k - 1], now, turns(k - 1).clock)
  }

  /**
   How the turn of a share ends on its answers; `missing` if the purge finds no row, `gone` if there
   is none when its failures are read.
   */
  function TurnResult(turn: ShareTurn, listed: Share, outcome: Outcome, missing: bool, gone: bool): CycleResult {
    if turn.paused then PausedMidway
    else if outcome.Duplicate? then (if turn.recorded then Finished else StoreFailed)
    else if !turn.looked || (missing && !turn.purged) then StoreFailed
    else if Unsettled(outcome) && turn.stillPaused then PausedMidway
    else if !turn.recorded then StoreFailed
    else if RecordedAs(listed, outcome, 0, 0).WriteFailure? && (gone || !turn.updated) then StoreFailed
    else Finished
  }

  ghost predicate TurnEnds(turn: ShareTurn, listed: Share, outcome: Outcome, result: CycleResult) {
    exists missing, gone :: TurnResult(turn, listed, outcome, missing, gone) == result
  }

  /** What a share's turn adds to the book. */
  ghost predicate NotedTurn(before: Book, after: Book, listed: Share, outcome: Outcome, now: int, turn: ShareTurn,
                            result: CycleResult) {
    match result
    case Finished => after == Noting(before, Entry(listed, outcome, now, turn.clock))
    case _ => after == if turn.paused then before else Noting(before, [Begin(listed), Return(outcome)])
  }

  /** The updates of a plan of renames. */
  function RenameCalls(renames: seq<Titles.Rename>): seq<Event> {
    if renames == [] then []
    else
      var last := renames[|renames| - 1];
      RenameCalls(renames[..|renames| - 1]) + [Event.Rename(last.code, last.to)]
  }

  predicate TitlesWritten(answers: CycleAnswers, renames: seq<Titles.Rename>) {
    answers.surveyed && forall i :: 0 <= i < |renames| ==> answers.renamed(i)
  }

  /** What the shares' turns and the renames make of a cycle. */
  function Verdict(answers: CycleAnswers, crawled: CycleResult, renames: seq<Titles.Rename>): CycleResult {
    if !crawled.Finished? then crawled else if TitlesWritten(answers, renames) then Finished else StoreFailed
  }

  /** The share in hand is the same; only its data may have been deleted in the meantime. */
  predicate SameJob(p: Phase, q: Phase) {
    q == p || (InFlight(p) && q == p.(job := Stripped(p.job)))
  }

  /** The crawl of `listed` has returned; `todo` are still to be crawled. */
  predicate InHand(p: Phase, outcome: Outcome, listed: Share, todo: seq<Share>) {
    && (if outcome.Duplicate? then p.Recording? else p.Checking?)
    && p.outcome == outcome && p.job.listed == listed && p.job.todo == todo
  }

  datatype CycleResult = Finished | PausedMidway | StoreFailed

  /** An outcome that does not show the proxies working: one that failed at them, or a duplicate. */
  predicate ProxyLike(outcome: Outcome) {
    outcome.Duplicate? || outcome == Outcome.Failed(ProxyFailure)
  }

  predicate AllProxyLike(outcomes: seq<Outcome>) {
    forall o :: o in outcomes ==> ProxyLike(o)
  }

  lemma FirstOf(shares: seq<Share>, i: nat)
    requires i < |shares|
    ensures shares[i..] == [shares[i]] + shares[i + 1..]
  {
  }

  lemma AllProxyLikeNext(outcomes: seq<Outcome>, outcome: Outcome)
    ensures AllProxyLike(outcomes + [outcome]) <==> AllProxyLike(outcomes) && ProxyLike(outcome)
  {
    var all := outcomes + [outcome];
    assert outcome == all[|outcomes|];
    assert forall o :: o in all <==> o in outcomes || o == outcome;
  }

  /** A cycle that listed some share and saw none answer. */
  ghost predicate Unanswered(cycle: seq<Event>) {
    && (exists e :: e in cycle && e.Return?)
    && (forall e :: e in cycle && e.Return? ==> ProxyLike(e.outcome))
  }

  /** How many of the latest cycles, in a row, went unanswered. */
  ghost function Streak(cycles: seq<seq<Event>>): nat {
    if cycles == [] || !Unanswered(cycles[|cycles| - 1]) then 0 else Streak(cycles[..|cycles| - 1]) + 1
  }

  /** In seconds: 5, 15, 30 minutes, then an hour. */
  function ProxyBackoff(failures: int): int {
    if failures <= 1 then 5 * 60 else if failures == 2 then 15 * 60 else if failures == 3 then 30 * 60 else 3600
  }

  /** The sleep after the last of `cycles`. */
  ghost function SleepAfter(cycles: seq<seq<Event>>, interval: int): int {
    if Streak(cycles) > 0 then ProxyBackoff(Streak(cycles)) else if interval <= 0 then 60 else interval
  }

  /** One sleep after each cycle. */
  ghost predicate Slept(sleeps: seq<int>, cycles: seq<seq<Event>>, interval: int) {
    |sleeps| == |cycles| && forall i :: 0 <= i < |sleeps| ==> sleeps[i] == SleepAfter(cycles[..i + 1], interval)
  }

  /**
   Sleeps along a run of unanswered cycles: 5, 15 and 30 minutes, then an hour each; one answer
   returns them to the interval.
   */
  lemma SleepsGrow(cycles: seq<seq<Event>>, cycle: seq<Event>, interval: int)
    ensures !Unanswered(cycle) ==> SleepAfter(cycles + [cycle], interval) == if interval <= 0 then 60 else interval
    ensures Unanswered(cycle) ==>
              var before := Streak(cycles);
              SleepAfter(cycles + [cycle], interval)
              == if before == 0 then 300 else if before == 1 then 900 else if before == 2 then 1800 else 3600
  {
    assert (cycles + [cycle])[..|cycles|] == cycles;
  }

  class Scheduler {
    const library: Library
    const retryCount: int
    const dedupeMinFileSize: int
    var shares: seq<Share>
    var data: map<string, Durable>
    var nextId: nat
    ghost var phase: Phase
    ghost var trace: seq<Event>
    ghost var book: Book
    ghost const start: World

    ghost function View(): World
      reads this
    {
      World(shares, data, nextId, phase)
    }

    ghost predicate Valid()
      reads this
    {
      OnBook(library, start, trace, View(), book)
    }

    /** One store call was made, and it was `e`. */
    ghost predicate Made(w: World, b: Book, es: seq<Event>, e: Event)
      reads this
    {
      Valid() && View() == Step(w, e) && book == BookAfter(b, e) && trace == es + [e]
    }

    /** The run went on within a cycle, by the noted calls `notes` and others. */
    ghost predicate Goes(b: Book, es: seq<Event>, notes: seq<Event>)
      reads this
    {
      Valid() && es <= trace && book == Noting(b, notes)
    }

    /** The run went on without a noted call. */
    ghost predicate Quietly(b: Book, es: seq<Event>)
      reads this
    {
      Valid() && es <= trace && book == b
    }

    /** The run went on with one noted call, if any. */
    ghost predicate NotesIf(b: Book, es: seq<Event>, noted: bool, note: Event)
      reads this
    {
      Valid() && es <= trace && book == if noted then Noting(b, [note]) else b
    }

    constructor (library: Library, retryCount: int, dedupeMinFileSize: int, shares: seq<Share>,
                 data: map<string, Durable>, nextId: nat)
      ensures Valid() && View() == World(shares, data, nextId, Resting)
      ensures trace == [] && book == Book([], []) && start == View()
    {
      this.library, this.retryCount, this.dedupeMinFileSize := library, retryCount, dedupeMinFileSize;
      this.shares, this.data, this.nextId := shares, data, nextId;
      phase, trace, book := Resting, [], Book([], []);
      start := World(shares, data, nextId, Resting);
    }

    /** Records that the tables have changed as `e` says. */
    ghost method Emit(w: World, e: Event)
      requires OnBook(library, start, trace, w, book) && phase == w.phase && Ready(w, e) && Faithful(library, w, e)
      requires shares == SharesAfter(w, e) && data == DataAfter(w, e)
               && nextId == w.nextId + (if Creates(w, e) then 1 else 0)
      modifies this`phase, this`trace, this`book
      ensures Made(w, old(book), old(trace), e)
      ensures !e.List? && !e.Rest? ==> book == Noting(old(book), NoteOf(e))
    {
      BookNext(library, start, trace, w, book, e);
      NoteOne(book, e);
      phase, trace, book := PhaseAfter(w, e), trace + [e], BookAfter(book, e);
    }

    /** A store call fails, and the cycle with it. */
    ghost method Fail()
      requires Valid()
      modifies this`phase, this`trace, this`book
      ensures Made(old(View()), old(book), old(trace), Abort)
      ensures book == old(book)
    {
      assert shares == SharesAfter(View(), Abort);
      Emit(View(), Abort);
    }

    // ----- administrative calls -----

    /** What a cycle may rely on once others have used the store. */
    ghost predicate Interfered(p: Phase, b: Book, es: seq<Event>)
      reads this
    {
      Valid() && es <= trace && book == b && SameJob(p, phase)
    }

    method UpsertShare(code: string, receive: string)
      requires Valid()
      modifies this
      ensures Made(old(View()), old(book), old(trace), Upsert(code, receive))
              && Interfered(old(phase), old(book), old(trace))
    {
      ghost var w := View();
      if HasPair(shares, code, receive) {
        shares := seq(|shares|, i requires 0 <= i < |shares| reads this =>
                    if shares[i].code == code && shares[i].receiveCode == receive
                    then shares[i].(status := Active, lastCrawledAt := 0, failureCount := 0, retryAfter := 0,
                                    version := 0)
                    else shares[i]);
      } else {
        shares := shares + [Share(nextId, code, receive, "", 0, Active, 0, 0, 0, 0, "", NoGroup)];
        nextId := nextId + 1;
      }
      Emit(w, Upsert(code, receive));
    }

    method UpdateShareMeta(code: string, receive: string, title: string, fileSize: int)
      requires Valid()
      modifies this
      ensures Made(old(View()), old(book), old(trace), Describe(code, receive, title, fileSize))
              && Interfered(old(phase), old(book), old(trace))
    {
      ghost var w := View();
      if HasPair(shares, code, receive) {
        shares := seq(|shares|, i requires 0 <= i < |shares| reads this =>
                    if shares[i].code == code && shares[i].receiveCode == receive
                    then shares[i].(title := title, fileSize := fileSize)
                    else shares[i]);
      } else {
        shares := shares + [Share(nextId, code, receive, title, fileSize, Active, 0, 0, 0, 0, "", NoGroup)];
        nextId := nextId + 1;
      }
      Emit(w, Describe(code, receive, title, fileSize));
    }

    method DeleteShare(code: string)
      requires Valid()
      modifies this
      ensures Made(old(View()), old(book), old(trace), Delete(code)) && Interfered(old(phase), old(book), old(trace))
    {
      ghost var w := View();
      data := data - {code};
      shares := Without(shares, code);
      Emit(w, Delete(code));
    }

    method ReactivateShare(code: string)
      requires Valid()
      modifies this
      ensures Made(old(View()), old(book), old(trace), Reactivate(code))
              && Interfered(old(phase), old(book), old(trace))
    {
      ghost var w := View();
      shares := UpdateWhere(shares, code,
          (s: Share) => s.(status := Active, duplicateOf := "", failureCount := 0, retryAfter := 0));
      assert shares == SharesAfter(w, Reactivate(code));
      Emit(w, Reactivate(code));
    }

    method RenameShareTitle(code: string, title: string)
      requires Valid()
      modifies this
      ensures Made(old(View()), old(book), old(trace), Retitle(code, title))
              && Interfered(old(phase), old(book), old(trace))
    {
      ghost var w := View();
      shares := UpdateWhere(shares, code, (s: Share) => s.(title := title));
      assert shares == SharesAfter(w, Retitle(code, title));
      Emit(w, Retitle(code, title));
    }

    method AdminCall()
      requires Valid()
      modifies this
      ensures Interfered(old(phase), old(book), old(trace))
    {
      var code: string, receive: string, title: string, fileSize: int := *, *, *, *;
      if * {
        UpsertShare(code, receive);
      } else if * {
        UpdateShareMeta(code, receive, title, fileSize);
      } else if * {
        DeleteShare(code);
      } else if * {
        ReactivateShare(code);
      } else {
        RenameShareTitle(code, title);
      }
    }

    /** Between two of the cycle's own calls others may make any number. */
    method Interfere()
      requires Valid()
      modifies this
      ensures Interfered(old(phase), old(book), old(trace))
    {
      var n: nat :| n >= 0;
      for i := 0 to n
        invariant Interfered(old(phase), old(book), old(trace))
      {
        AdminCall();
      }
    }

    // ----- the cycle's own calls -----

    method ListSharesForCrawl(now: int, works: bool) returns (listing: seq<Share>)
      requires Valid() && phase.Resting?
      modifies this
      ensures Valid() && trace == old(trace) + [if works then List(now) else Abort]
      ensures phase == if works then Between(listing) else Resting
      ensures works ==> IsListing(listing, old(shares), now) && shares == old(shares)
      ensures book == if works then Book([List(now)], old(book).cycles) else old(book)
    {
      listing := [];
      if !works { Fail(); return; }
      listing := Listing(shares, now);
      ListingFields(shares, now);
      assert shares == SharesAfter(View(), List(now));
      Emit(View(), List(now));
      assert old(book).cycles + [] == old(book).cycles;
    }

    method MarkShareCrawled(code: string, at: int, works: bool)
      requires Valid() && phase.Recording? && phase.outcome.Drained? && phase.job.listed.code == code
      modifies this
      ensures Made(old(View()), old(book), old(trace), if works then MarkCrawled(at) else Abort)
      ensures phase == if works then Between(old(phase.job.todo)) else Resting
    {
      if !works { Fail(); return; }
      ghost var w := View();
      shares := UpdateWhere(shares, code, (s: Share) =>
                  s.(status := Status.Completed, lastCrawledAt := at, failureCount := 0, retryAfter := 0,
                      version := s.version + 1));
      assert shares == SharesAfter(w, MarkCrawled(at));
      Emit(w, MarkCrawled(at));
    }

    method MarkShareDead(code: string, works: bool)
      requires Valid() && phase.Recording? && phase.outcome == Outcome.Failed(DeadShare)
               && phase.job.listed.code == code
      modifies this
      ensures Made(old(View()), old(book), old(trace), if works then MarkDead else Abort)
      ensures phase == if works then Between(old(phase.job.todo)) else Resting
    {
      if !works { Fail(); return; }
      ghost var w := View();
      shares := UpdateWhere(shares, code, (s: Share) => s.(status := Dead, retryAfter := 0));
      assert shares == SharesAfter(w, MarkDead);
      Emit(w, MarkDead);
    }

    method MarkShareDuplicate(code: string, canonical: string, works: bool)
      requires Valid() && phase.Recording? && phase.outcome == Duplicate(canonical) && phase.job.listed.code == code
      modifies this
      ensures Made(old(View()), old(book), old(trace), if works then MarkDuplicate else Abort)
      ensures phase == if works then Between(old(phase.job.todo)) else Resting
    {
      if !works { Fail(); return; }
      ghost var w := View();
      shares := UpdateWhere(shares, code, (s: Share) =>
                  s.(status := DuplicateShare, duplicateOf := canonical, failureCount := 0, retryAfter := 0));
      assert shares == SharesAfter(w, MarkDuplicate);
      Emit(w, MarkDuplicate);
    }

    method MarkShareShelved(code: string, clock: int, works: bool)
      requires Valid() && phase.Recording? && GivesUp(phase.job.listed, phase.outcome) && phase.job.listed.code == code
      modifies this
      ensures Made(old(View()), old(book), old(trace), if works then Shelve(clock) else Abort)
      ensures phase == if works then Between(old(phase.job.todo)) else Resting
    {
      if !works { Fail(); return; }
      ghost var w := View();
      shares := UpdateWhere(shares, code, (s: Share) => s.(status := Quarantine, retryAfter := clock + 315_360_000));
      assert shares == SharesAfter(w, Shelve(clock));
      Emit(w, Shelve(clock));
    }

    /** `GetShare`: a share that is gone is an error. */
    method GetFailures(code: string, works: bool) returns (ok: bool, failures: nat, ghost gone: bool)
      requires Valid() && Ready(View(), ReadFailures) && phase.job.listed.code == code
      modifies this
      ensures gone <==> !HasCode(old(shares), code)
      ensures ok <==> works && !gone
      ensures ok ==> forall i: nat :: Newest(old(shares), code, i) ==> failures == old(shares)[i].failureCount
      ensures Quietly(old(book), old(trace))
      ensures trace == old(trace) + [if works then ReadFailures else Abort]
      ensures phase == if ok then Updating(old(phase.job), old(phase.outcome), failures) else Resting
    {
      ok, failures, gone := false, 0, !HasCode(shares, code);
      if !works { Fail(); return; }
      ok := HasCode(shares, code);
      if ok {
        failures := Failures(shares, code);
        forall i: nat | Newest(shares, code, i) ensures failures == shares[i].failureCount {
          FailuresNewest(shares, code, i);
        }
      }
      assert shares == SharesAfter(View(), ReadFailures);
      Emit(View(), ReadFailures);
    }

    /** The update that follows. */
    method SetFailures(code: string, failures: nat, clock: int, works: bool)
      requires Valid() && phase.Updating? && phase.failures == failures && phase.job.listed.code == code
      modifies this
      ensures Valid() && trace == old(trace) + [if works then WriteFailure(clock) else Abort]
      ensures NotesIf(old(book), old(trace), works, WriteFailure(clock))
      ensures phase == if works then Between(old(phase.job.todo)) else Resting
    {
      if !works { Fail(); return; }
      ghost var w := View();
      var seconds := BackoffSeconds(failures + 1);
      shares := UpdateWhere(shares, code, (s: Share) =>
                  s.(status := if failures + 1 >= 3 then Quarantine else Stale, failureCount := failures + 1,
                      retryAfter := clock + seconds));
      assert shares == SharesAfter(w, WriteFailure(clock));
      Emit(w, WriteFailure(clock));
    }

    method RecordShareFailure(code: string, turn: ShareTurn) returns (ok: bool, ghost gone: bool)
      requires Valid() && Ready(View(), ReadFailures) && phase.job.listed.code == code
      modifies this
      ensures ok <==> turn.recorded && !gone && turn.updated
      ensures NotesIf(old(book), old(trace), ok, WriteFailure(turn.clock))
      ensures phase == if ok then Between(old(phase.job.todo)) else Resting
    {
      var failures;
      ok, failures, gone := GetFailures(code, turn.recorded);
      if ok {
        Interfere();
        SetFailures(code, failures, turn.clock, turn.updated);
        ok := turn.updated;
      }
    }

    /** `SELECT 1 FROM share`. */
    method IsRegistered(code: string, works: bool) returns (registered: bool)
      requires Valid() && phase.Checking? && phase.job.listed.code == code
      modifies this
      ensures Quietly(old(book), old(trace)) && trace == old(trace) + [if works then Check else Abort]
      ensures works && registered ==> phase == Recording(old(phase.job), old(phase.outcome))
      ensures works && !registered ==> phase == Purging(old(phase.job), old(phase.outcome))
      ensures !works ==> phase.Resting?
    {
      registered := false;
      if !works { Fail(); return; }
      registered := HasCode(shares, code);
      assert shares == SharesAfter(View(), Check);
      Emit(View(), Check);
    }

    /** The deletes that follow when it finds none. */
    method DropOrphan(code: string, works: bool)
      requires Valid() && phase.Purging? && phase.job.listed.code == code
      modifies this
      ensures Quietly(old(book), old(trace)) && trace == old(trace) + [if works then Purge else Abort]
      ensures phase == if works then Recording(Stripped(old(phase.job)), old(phase.outcome)) else Resting
    {
      if !works { Fail(); return; }
      ghost var w := View();
      data := data - {code};
      assert shares == SharesAfter(w, Purge);
      Emit(w, Purge);
    }

    method PurgeIfOrphan(code: string, turn: ShareTurn) returns (ok: bool, ghost missing: bool)
      requires Valid() && phase.Checking? && phase.job.listed.code == code
      modifies this
      ensures ok <==> turn.looked && (missing ==> turn.purged)
      ensures Quietly(old(book), old(trace))
      ensures if ok
              then phase.Recording? && SameJob(Recording(old(phase.job), old(phase.outcome)), phase)
              else phase.Resting?
    {
      var registered := IsRegistered(code, turn.looked);
      ok, missing := turn.looked, turn.looked && !registered;
      if turn.looked && !registered {
        Interfere();
        DropOrphan(code, turn.purged);
        ok := turn.purged;
      }
    }

    /** A crawl of `listed` over something stored for it ends like this. */
    ghost predicate CrawledAs(listed: Share, answers: Answers, outcome: Outcome) {
      exists found, log :: Ends(SettingOf(listed, answers), found, outcome, log)
    }

    // ----- one share -----

    ghost function SettingOf(listed: Share, answers: Answers): Setting {
      Setting(library(listed.code), if retryCount <= 0 then 2 else retryCount, dedupeMinFileSize, listed.title, answers)
    }

    /** CrawlShare, with the listed title, over what it finds stored for the share; `d` is what it leaves. */
    method CallCrawler(listed: Share, now: int, found: Durable, answers: Answers)
      returns (outcome: Outcome, meta: Option<Meta>, d: Durable, files: FileTable, log: seq<CrawlRun.Fetch>)
      ensures Ends(SettingOf(listed, answers), found, outcome, log)
      ensures if outcome.Drained?
              then DrainsTo(library(listed.code), found, d)
              else CrawlsTo(library(listed.code), found, d)
      ensures outcome.Duplicate? ==> d.rows == found.rows
      ensures d.rows == Strip(files)
      ensures forall id :: id in files ==>
                files[id].crawledAt == now || (id in found.rows && files[id].row == found.rows[id])
      ensures meta.Some? ==>
                listed.title == "" && meta.value == Meta(library(listed.code).shareTitle, library(listed.code).fileSize)
      ensures outcome.Drained? && log != [] && listed.title == "" && library(listed.code).shareTitle != "" ==>
                meta.Some?
    {
      var store := new CrawlStore(map id | id in found.rows :: StoredRow(found.rows[id], 0), found.checkpoint);
      assert Strip(store.files) == found.rows;
      var crawler := new Crawler(library(listed.code), retryCount, dedupeMinFileSize, store);
      outcome, log := crawler.CrawlShare(listed.title, now, answers);
      meta, d, files := store.meta, Durable(store.checkpoint, Strip(store.files)), store.files;
    }

    /** What the crawl's calls leave of the share's data, stored. */
    method StoreData(code: string, outcome: Outcome, d: Durable)
      requires Valid() && phase.Crawling? && phase.job.listed.code == code && !phase.job.wrote && !phase.job.drained
      requires if outcome.Drained?
               then DrainsTo(library(code), phase.job.pos, d)
               else CrawlsTo(library(code), phase.job.pos, d)
      requires outcome.Duplicate? ==> d.rows == DataOf(View(), code).rows
      modifies this
      ensures Quietly(old(book), old(trace))
      ensures trace == old(trace) + [if outcome.Drained? then Drain(d) else Write(d, d)]
      ensures phase.Crawling? && phase.job.listed == old(phase.job.listed) && phase.job.todo == old(phase.job.todo)
      ensures (phase.job.drained <==> outcome.Drained?) && (outcome.Duplicate? ==> !phase.job.wrote)
    {
      ghost var w, e := View(), if outcome.Drained? then Drain(d) else Write(d, d);
      data := data[code := d];
      assert shares == SharesAfter(w, e);
      Emit(w, e);
    }

    /** The calls of one crawl, the metadata's among them if `described`, leaving `d`. */
    ghost function CrawlCalls(listed: Share, outcome: Outcome, described: bool, d: Durable): seq<Event> {
      [Begin(listed)]
      + (if described
         then [Describe(listed.code, listed.receiveCode, library(listed.code).shareTitle,
                   library(listed.code).fileSize)]
         else [])
      + [if outcome.Drained? then Drain(d) else Write(d, d)]
    }

    /** Takes up the next share and makes its crawl's calls. */
    method Crawl(ghost todo: seq<Share>, listed: Share, now: int, answers: Answers)
      returns (outcome: Outcome, ghost described: bool, d: Durable, ghost log: seq<CrawlRun.Fetch>)
      requires Valid() && phase == Between([listed] + todo)
      modifies this
      ensures Goes(old(book), old(trace), [Begin(listed)])
      ensures trace == old(trace) + CrawlCalls(listed, outcome, described, d)
      ensures Ends(SettingOf(listed, answers), DataOf(old(View()), listed.code), outcome, log)
      ensures described ==> listed.title == ""
      ensures outcome.Drained? && log != [] && listed.title == "" && library(listed.code).shareTitle != "" ==> described
      ensures phase.Crawling? && phase.job.listed == listed && phase.job.todo == todo
      ensures (phase.job.drained <==> outcome.Drained?) && (outcome.Duplicate? ==> !phase.job.wrote)
    {
      var found := if listed.code in data then data[listed.code] else UNTOUCHED;
      TakeUp(listed, todo);
      var meta, files, fetched;
      outcome, meta, d, files, fetched := CallCrawler(listed, now, found, answers);
      log, described := fetched, meta.Some?;
      StoreMeta(listed, meta);
      StoreData(listed.code, outcome, d);
    }

    /** Crawls the next share; others use the store before its outcome is handled. */
    method CrawlNext(ghost todo: seq<Share>, listed: Share, now: int, answers: Answers) returns (outcome: Outcome)
      requires Valid() && phase == Between([listed] + todo)
      modifies this
      ensures Goes(old(book), old(trace), [Begin(listed), Return(outcome)])
      ensures exists log :: Ends(SettingOf(listed, answers), DataOf(old(View()), listed.code), outcome, log)
      ensures CrawledAs(listed, answers, outcome)
      ensures InHand(phase, outcome, listed, todo)
    {
      ghost var described, log;
      var d;
      outcome, described, d, log := Crawl(todo, listed, now, answers);
      Interfere();
      GiveBack(outcome);
    }

    /** The title and size the crawl found. */
    method StoreMeta(listed: Share, meta: Option<Meta>)
      requires Valid()
      modifies this
      ensures Quietly(old(book), old(trace))
      ensures trace == old(trace)
                       + if meta.Some?
                         then [Describe(listed.code, listed.receiveCode, meta.value.title, meta.value.fileSize)]
                         else []
      ensures phase == old(phase) && data == old(data)
    {
      if meta.Some? {
        UpdateShareMeta(listed.code, listed.receiveCode, meta.value.title, meta.value.fileSize);
      }
    }

    ghost method TakeUp(listed: Share, todo: seq<Share>)
      requires Valid() && phase == Between([listed] + todo)
      modifies this`phase, this`trace, this`book
      ensures Valid() && trace == old(trace) + [Begin(listed)] && Goes(old(book), old(trace), [Begin(listed)])
      ensures phase == Crawling(Job(listed, todo, DataOf(old(View()), listed.code), false, false))
      ensures data == old(data)
    {
      assert ([listed] + todo)[1..] == todo;
      assert shares == SharesAfter(View(), Begin(listed));
      Emit(View(), Begin(listed));
    }

    ghost method GiveBack(outcome: Outcome)
      requires Valid() && phase.Crawling? && (outcome.Duplicate? ==> !phase.job.wrote)
      requires phase.job.drained <==> outcome.Drained?
      modifies this`phase, this`trace, this`book
      ensures Valid() && trace == old(trace) + [Return(outcome)] && Goes(old(book), old(trace), [Return(outcome)])
      ensures phase == if outcome.Duplicate?
                       then Recording(old(phase.job), outcome)
                       else Checking(old(phase.job), outcome)
    {
      assert shares == SharesAfter(View(), Return(outcome));
      Emit(View(), Return(outcome));
    }

    ghost method StopForPause()
      requires Valid() && Ready(View(), Pause)
      modifies this`phase, this`trace, this`book
      ensures Valid() && trace == old(trace) + [Pause] && Quietly(old(book), old(trace)) && phase.Resting?
    {
      assert shares == SharesAfter(View(), Pause);
      Emit(View(), Pause);
    }

    /** The default case: a pause if the gate is still on, else a failure, or a shelving when empty data persists. */
    method RecordUnsettled(listed: Share, outcome: Outcome, turn: ShareTurn)
      returns (result: CycleResult, ghost gone: bool)
      requires Valid() && phase.Recording? && phase.outcome == outcome && phase.job.listed == listed
               && Unsettled(outcome)
      modifies this
      ensures !turn.paused && turn.looked ==> result == TurnResult(turn, listed, outcome, false, gone)
      ensures NotesIf(old(book), old(trace), result.Finished?, RecordedAs(listed, outcome, 0, turn.clock))
      ensures phase == if result.Finished? then Between(old(phase.job.todo)) else Resting
    {
      gone := false;
      if turn.stillPaused {
        StopForPause();
        return PausedMidway, false;
      }
      var ok := turn.recorded;
      if outcome == Outcome.Failed(EmptyData) && listed.failureCount + 1 >= 4 {
        MarkShareShelved(listed.code, turn.clock, turn.recorded);
      } else {
        ok, gone := RecordShareFailure(listed.code, turn);
      }
      result := if ok then Finished else StoreFailed;
    }

    /** The switch over a crawl's outcome. */
    method RecordOutcome(listed: Share, now: int, outcome: Outcome, turn: ShareTurn, proxyOnly: bool)
      returns (result: CycleResult, proxyOnly': bool, ghost gone: bool)
      requires Valid() && phase.Recording? && phase.outcome == outcome && phase.job.listed == listed
               && !outcome.Duplicate?
      modifies this
      ensures !turn.paused && turn.looked ==> result == TurnResult(turn, listed, outcome, false, gone)
      ensures NotesIf(old(book), old(trace), result.Finished?, RecordedAs(listed, outcome, now, turn.clock))
      ensures phase == if result.Finished? then Between(old(phase.job.todo)) else Resting
      ensures result.Finished? ==> proxyOnly' == (proxyOnly && ProxyLike(outcome))
    {
      proxyOnly', gone := proxyOnly, false;
      if outcome.Drained? {
        proxyOnly' := false;
        MarkShareCrawled(listed.code, now, turn.recorded);
        result := if turn.recorded then Finished else StoreFailed;
      } else if outcome == Outcome.Failed(DeadShare) {
        proxyOnly' := false;
        MarkShareDead(listed.code, turn.recorded);
        result := if turn.recorded then Finished else StoreFailed;
      } else {
        result, gone := RecordUnsettled(listed, outcome, turn);
        if outcome != Outcome.Failed(ProxyFailure) {
          proxyOnly' := false;
        }
      }
    }

    /**
     A duplicate is marked, without a purge; any other outcome is recorded once a share that is gone
     has been purged.
     */
    method Settle(listed: Share, ghost todo: seq<Share>, now: int, outcome: Outcome, turn: ShareTurn, proxyOnly: bool)
      returns (result: CycleResult, proxyOnly': bool)
      requires Valid() && InHand(phase, outcome, listed, todo)
      modifies this
      ensures !turn.paused ==> TurnEnds(turn, listed, outcome, result)
      ensures NotesIf(old(book), old(trace), result.Finished?, RecordedAs(listed, outcome, now, turn.clock))
      ensures phase == if result.Finished? then Between(todo) else Resting
      ensures result.Finished? ==> proxyOnly' == (proxyOnly && ProxyLike(outcome))
    {
      proxyOnly' := proxyOnly;
      Interfere();
      ghost var missing, gone := false, false;
      if outcome.Duplicate? {
        MarkShareDuplicate(listed.code, outcome.canonical, turn.recorded);
        result := if turn.recorded then Finished else StoreFailed;
      } else {
        var ok;
        ok, missing := PurgeIfOrphan(listed.code, turn);
        result := StoreFailed;
        if ok {
          Interfere();
          result, proxyOnly', gone := RecordOutcome(listed, now, outcome, turn, proxyOnly);
        }
      }
      assert !turn.paused ==> TurnResult(turn, listed, outcome, missing, gone) == result;
    }

    /** One pass of the cycle's loop: a pause ends the cycle, otherwise the next share is crawled and settled. */
    method TakeTurn(listed: Share, ghost todo: seq<Share>, now: int, turn: ShareTurn, proxyOnly: bool)
      returns (result: CycleResult, proxyOnly': bool, ghost outcome: Outcome)
      requires Valid() && phase == Between([listed] + todo)
      modifies this
      ensures TurnEnds(turn, listed, outcome, result) && (!turn.paused ==> CrawledAs(listed, turn.crawl, outcome))
      ensures Valid() && old(trace) <= trace
      ensures NotedTurn(old(book), book, listed, outcome, now, turn, result)
      ensures phase == if result.Finished? then Between(todo) else Resting
      ensures result.Finished? ==> proxyOnly' == (proxyOnly && ProxyLike(outcome))
      ensures result.PausedMidway? ==> !proxyOnly'
    {
      result, proxyOnly', outcome := PausedMidway, false, Outcome.Paused;
      Interfere();
      if turn.paused {
        StopForPause();
        assert TurnResult(turn, listed, outcome, false, false) == result;
      } else {
        var crawled := CrawlNext(todo, listed, now, turn.crawl);
        outcome := crawled;
        result, proxyOnly' := Settle(listed, todo, now, crawled, turn, proxyOnly);
        if result.PausedMidway? {
          proxyOnly' := false;
        }
      }
    }

    // ----- the cycle -----

    /** The renames were planned for the share table as it was somewhere between `before` and `after`. */
    ghost predicate Planned(before: seq<Event>, after: seq<Event>, renames: seq<Titles.Rename>) {
      exists i: nat, v, b :: PlannedAt(before, after, renames, i, v, b)
    }

    ghost predicate PlannedAt(before: seq<Event>, after: seq<Event>, renames: seq<Titles.Rename>, i: nat, v: World,
                              b: Book)
    {
      && |before| <= i <= |after| && OnBook(library, start, after[..i], v, b)
      && Titles.Renames(v.shares, renames, Titles.AllTurns(v.shares))
    }

    lemma PlannedStill(before: seq<Event>, es: seq<Event>, after: seq<Event>, renames: seq<Titles.Rename>)
      requires Planned(before, es, renames) && es <= after
      ensures forall earlier: seq<Event> :: |earlier| <= |before| ==> Planned(earlier, after, renames)
    {
      var i: nat, v, b :| PlannedAt(before, es, renames, i, v, b);
      assert after[..i] == es[..i];
      forall earlier: seq<Event> | |earlier| <= |before|
        ensures Planned(earlier, after, renames)
      {
        assert PlannedAt(earlier, after, renames, i, v, b);
      }
    }

    method ApplyRename(rename: Titles.Rename)
      requires Valid() && phase == Between([])
      modifies this
      ensures Goes(old(book), old(trace), [Event.Rename(rename.code, rename.to)]) && phase == Between([])
    {
      Interfere();
      ghost var w := View();
      shares := UpdateWhere(shares, rename.code, (s: Share) => s.(title := rename.to));
      assert shares == SharesAfter(w, Event.Rename(rename.code, rename.to));
      Emit(w, Event.Rename(rename.code, rename.to));
    }

    method ApplyRenames(plan: seq<Titles.Rename>, answers: CycleAnswers) returns (done: nat)
      requires Valid() && phase == Between([])
      modifies this
      ensures done <= |plan| && (done < |plan| ==> !answers.renamed(done))
      ensures forall i :: 0 <= i < done ==> answers.renamed(i)
      ensures Goes(old(book), old(trace), RenameCalls(plan[..done])) && phase == Between([])
    {
      done := 0;
      while done < |plan| && answers.renamed(done)
        invariant done <= |plan| && forall i :: 0 <= i < done ==> answers.renamed(i)
        invariant Goes(old(book), old(trace), RenameCalls(plan[..done])) && phase == Between([])
      {
        ApplyRename(plan[done]);
        RenamesNext(plan, done);
        done := done + 1;
      }
    }

    /** Renames every share whose title an earlier one has, up to the first call that fails. */
    method DedupeShareTitles(answers: CycleAnswers)
      returns (ok: bool, ghost renames: seq<Titles.Rename>, ghost done: nat)
      requires Valid() && phase == Between([])
      modifies this
      ensures done <= |renames| && (ok <==> TitlesWritten(answers, renames)) && (ok ==> done == |renames|)
      ensures answers.surveyed ==> Planned(old(trace), trace, renames)
      ensures Goes(old(book), old(trace), RenameCalls(renames[..done])) && phase == Between([])
    {
      ok, renames, done := false, [], 0;
      Interfere();
      if answers.surveyed {
        var plan := Titles.PlanShareRenames(shares);
        ghost var seen, v, b := trace, View(), book;
        var n := ApplyRenames(plan, answers);
        ok, renames, done := n == |plan|, plan, n;
        assert trace[..|seen|] == seen;
        assert PlannedAt(old(trace), trace, renames, |seen|, v, b);
      }
    }

    /** The cycle's end. */
    ghost method EndCycle(ok: bool)
      requires Valid() && phase == Between([])
      modifies this`phase, this`trace, this`book
      ensures Made(old(View()), old(book), old(trace), if ok then Rest else Abort)
      ensures phase.Resting? && book.notes == old(book).notes
      ensures book.cycles == old(book).cycles + if ok then [old(book).notes] else []
    {
      var e := if ok then Rest else Abort;
      assert shares == SharesAfter(View(), e);
      Emit(View(), e);
    }

    method FinishCycle(answers: CycleAnswers) returns (ok: bool, ghost renames: seq<Titles.Rename>)
      requires Valid() && phase == Between([])
      modifies this
      ensures Valid() && old(trace) <= trace && phase.Resting?
      ensures ok <==> TitlesWritten(answers, renames)
      ensures answers.surveyed ==> Planned(old(trace), trace, renames)
      ensures old(book).notes <= book.notes
      ensures book.cycles == old(book).cycles + if ok then [old(book).notes + RenameCalls(renames)] else []
    {
      ghost var done;
      ok, renames, done := DedupeShareTitles(answers);
      ghost var es := trace;
      assert ok ==> renames[..done] == renames;
      EndCycle(ok);
      if answers.surveyed {
        PlannedStill(old(trace), es, trace, renames);
      }
    }

    ghost predicate TurnWent(turn: ShareTurn, listed: Share, outcome: Outcome, result: CycleResult) {
      TurnEnds(turn, listed, outcome, result) && (!turn.paused ==> CrawledAs(listed, turn.crawl, outcome))
    }

    /**
     The listed shares were taken up in turn and each went as it was answered, all of them, or up to
     the one that ended the cycle.
     */
    ghost predicate TurnsWent(answers: CycleAnswers, listing: seq<Share>, outcomes: seq<Outcome>,
                              crawled: CycleResult)
    {
      Went(answers, listing, outcomes, crawled) && (|outcomes| < |listing| ==> !crawled.Finished?)
    }

    /** The turns up to and including the latest, which ended with `result`. */
    ghost predicate Went(answers: CycleAnswers, listing: seq<Share>, outcomes: seq<Outcome>, result: CycleResult) {
      var n := |outcomes|;
      && n <= |listing| && (n == 0 ==> result.Finished?)
      && forall i :: 0 <= i < n ==>
           TurnWent(answers.turns(i), listing[i], outcomes[i], if i == n - 1 then result else Finished)
    }

    /** The notes are the listing, the entries of the shares got through, and what was done after that. */
    ghost predicate NotesBegin(b: Book, listing: seq<Share>, outcomes: seq<Outcome>, now: int, answers: CycleAnswers) {
      exists k: nat ::
        && k <= |outcomes| <= |listing| && |outcomes| <= k + 1
        && [List(now)] + Ledger(listing, outcomes, now, answers.turns, k) <= b.notes
    }

    /** The cycle ended as it was answered. */
    ghost predicate CycleEnds(answers: CycleAnswers, listing: seq<Share>, outcomes: seq<Outcome>,
                              renames: seq<Titles.Rename>, result: CycleResult) {
      if !answers.listed then result.StoreFailed?
      else
        exists crawled ::
          TurnsWent(answers, listing, outcomes, crawled) && result == Verdict(answers, crawled, renames)
    }

    /** Where the cycle is after the turns that ended in `outcomes`, the latest of them with `result`. */
    ghost predicate Through(first: Book, after: Book, due: seq<Share>, outcomes: seq<Outcome>, now: int,
                            answers: CycleAnswers, result: CycleResult) {
      match after
      case Book(_, _) => Went(answers, due, outcomes, result)
                         && Recorded(first, after, due, outcomes, now, answers.turns, result)
    }

    lemma ThroughNone(first: Book, due: seq<Share>, now: int, answers: CycleAnswers)
      ensures Through(first, first, due, [], now, answers, Finished)
    {
      assert first.notes + [] == first.notes;
    }

    lemma ThroughNext(first: Book, before: Book, after: Book, due: seq<Share>, outcomes: seq<Outcome>, now: int,
                      answers: CycleAnswers, outcome: Outcome, result: CycleResult)
      requires Through(first, before, due, outcomes, now, answers, Finished) && |outcomes| < |due|
      requires TurnWent(answers.turns(|outcomes|), due[|outcomes|], outcome, result)
      requires NotedTurn(before, after, due[|outcomes|], outcome, now, answers.turns(|outcomes|), result)
      ensures Through(first, after, due, outcomes + [outcome], now, answers, result)
    {
      RecordedNext(first, before, after, due, outcomes, now, answers.turns, outcome, result);
    }

    method TakeNext(due: seq<Share>, i: nat, now: int, answers: CycleAnswers, proxyOnly: bool,
                    ghost first: Book, ghost outcomes: seq<Outcome>)
      returns (result: CycleResult, proxyOnly': bool, ghost outcomes': seq<Outcome>)
      requires Valid() && i == |outcomes| < |due| && phase == Between(due[i..])
      requires Through(first, book, due, outcomes, now, answers, Finished)
      requires proxyOnly <==> AllProxyLike(outcomes)
      modifies this
      ensures Valid() && old(trace) <= trace && |outcomes'| == i + 1
      ensures Through(first, book, due, outcomes', now, answers, result)
      ensures phase == if result.Finished? then Between(due[i + 1..]) else Resting
      ensures result.Finished? ==> (proxyOnly' <==> AllProxyLike(outcomes'))
      ensures result.PausedMidway? ==> !proxyOnly'
    {
      FirstOf(due, i);
      ghost var outcome, before := Outcome.Paused, book;
      result, proxyOnly', outcome := TakeTurn(due[i], due[i + 1..], now, answers.turns(i), proxyOnly);
      ThroughNext(first, before, book, due, outcomes, now, answers, outcome, result);
      AllProxyLikeNext(outcomes, outcome);
      outcomes' := outcomes + [outcome];
    }

    /** The cycle's loop over the listed shares. */
    method CrawlAll(due: seq<Share>, now: int, answers: CycleAnswers)
      returns (proxyOnly: bool, result: CycleResult, ghost outcomes: seq<Outcome>)
      requires Valid() && phase == Between(due)
      modifies this
      ensures Valid() && old(trace) <= trace && phase == if result.Finished? then Between([]) else Resting
      ensures TurnsWent(answers, due, outcomes, result)
      ensures Recorded(old(book), book, due, outcomes, now, answers.turns, result)
      ensures result.Finished? ==> (proxyOnly <==> due != [] && AllProxyLike(outcomes))
      ensures result.PausedMidway? ==> !proxyOnly
    {
      proxyOnly, result, outcomes := |due| > 0, Finished, [];
      assert due[0..] == due && due[|due|..] == [];
      ThroughNone(book, due, now, answers);
      var i := 0;
      while i < |due| && result.Finished?
        invariant i <= |due| && |outcomes| == i
        invariant Valid() && old(trace) <= trace
        invariant phase == if result.Finished? then Between(due[i..]) else Resting
        invariant Through(old(book), book, due, outcomes, now, answers, result)
        invariant result.Finished? && due != [] ==> (proxyOnly <==> AllProxyLike(outcomes))
        invariant due == [] ==> !proxyOnly
        invariant result.PausedMidway? ==> !proxyOnly
        decreases |due| - i, if result.Finished? then 1 else 0
      {
        result, proxyOnly, outcomes := TakeNext(due, i, now, answers, proxyOnly, old(book), outcomes);
        i := i + 1;
      }
    }

    /**
     One cycle at `now`. Whatever fails and whoever interferes, its calls are a run of the fleet. It
     begins by listing what is due then; if it comes to its end, its notes are that listing, the
     entry of every listed share in turn, and the renames. It asks for the proxy backoff exactly
     when it listed some share and none was seen to answer.
     */
    method RunOnce(now: int, answers: CycleAnswers)
      returns (proxyOnly: bool, result: CycleResult,
               ghost listing: seq<Share>, ghost outcomes: seq<Outcome>, ghost renames: seq<Titles.Rename>)
      requires Valid() && phase.Resting?
      modifies this
      ensures Valid() && phase.Resting?
      ensures old(trace) + [if answers.listed then List(now) else Abort] <= trace
      ensures answers.listed ==> IsListing(listing, old(shares), now)
      ensures CycleEnds(answers, listing, outcomes, renames, result)
      ensures result.Finished? ==> |outcomes| == |listing| && Planned(old(trace), trace, renames)
      ensures result.Finished? ==>
                var cycle := CycleNotes(listing, outcomes, now, answers.turns, renames);
                book.cycles == old(book).cycles + [cycle] && (proxyOnly <==> Unanswered(cycle))
      ensures !result.Finished? ==> book.cycles == old(book).cycles
      ensures answers.listed ==> NotesBegin(book, listing, outcomes, now, answers)
      ensures result.PausedMidway? ==> !proxyOnly
    {
      proxyOnly, result, listing, outcomes, renames := false, StoreFailed, [], [], [];
      var due := ListSharesForCrawl(now, answers.listed);
      if answers.listed {
        listing := due;
        proxyOnly, result, outcomes := CrawlAll(due, now, answers);
        ghost var crawled := result;
        if result.Finished? {
          ghost var crawledAt := trace;
          var ok;
          ok, renames := FinishCycle(answers);
          result := if ok then Finished else StoreFailed;
          LedgerAnswers(due, outcomes, now, answers.turns, renames);
          if ok {
            PlannedStill(crawledAt, trace, trace, renames);
          }
        }
      }
    }

    /** Each turn of the loop parked while paused, and else ran a cycle that ended as answered. */
    ghost predicate LoopWent(answers: nat -> LoopTurn, results: seq<LoopResult>) {
      forall i :: 0 <= i < |results| ==> LoopTurnWent(answers(i), results[i])
    }

    ghost predicate LoopTurnWent(turn: LoopTurn, result: LoopResult) {
      match result
      case Parked => turn.paused
      case Ran(r) =>
        !turn.paused && exists listing, outcomes, renames :: CycleEnds(turn.cycle, listing, outcomes, renames, r)
    }

    /** The cycle of a turn that is not paused. */
    method Cycle(turn: LoopTurn) returns (proxyOnly: bool, result: CycleResult, ghost more: seq<seq<Event>>)
      requires Valid() && phase.Resting? && !turn.paused
      modifies this
      ensures Valid() && phase.Resting? && old(trace) <= trace && book.cycles == old(book).cycles + more
      ensures LoopTurnWent(turn, Ran(result))
      ensures |more| == if result.Finished? then 1 else 0
      ensures result.Finished? ==>
                more[0] != [] && more[0][0] == List(turn.now) && (proxyOnly <==> Unanswered(more[0]))
    {
      ghost var listing, outcomes, renames;
      proxyOnly, result, listing, outcomes, renames := RunOnce(turn.now, turn.cycle);
      more := if result.Finished? then [CycleNotes(listing, outcomes, turn.now, turn.cycle.turns, renames)] else [];
    }

    /** The count of unanswered cycles in a row, and the sleep that follows. */
    method AfterCycle(interval: int, runs: nat, proxyOnly: bool, ghost cycles: seq<seq<Event>>, ghost cycle: seq<Event>)
      returns (runs': nat, sleep: int)
      requires runs == Streak(cycles) && (proxyOnly <==> Unanswered(cycle))
      ensures runs' == Streak(cycles + [cycle]) && sleep == SleepAfter(cycles + [cycle], interval)
    {
      StreakNext(cycles, cycle);
      runs' := if proxyOnly then runs + 1 else 0;
      var usual := if interval <= 0 then 60 else interval;
      sleep := if proxyOnly then ProxyBackoff(runs') else usual;
    }

    /** What the loop did, turn by turn. */
    ghost predicate LoopHolds(answers: nat -> LoopTurn, interval: int, log: LoopLog, ok: bool) {
      match log
      case LoopLog(results, finished, cycles, sleeps) =>
        && LoopWent(answers, results) && CyclesFinished(answers, results, finished, cycles)
        && Slept(sleeps, cycles, interval) && Ended(results, ok)
    }

    /** A cycle or a parked turn is one more line of the log. */
    lemma LoopHoldsNext(answers: nat -> LoopTurn, interval: int, log: LoopLog, result: LoopResult,
                        more: seq<seq<Event>>)
      requires LoopHolds(answers, interval, log, true) && LoopTurnWent(answers(|log.results|), result)
      requires |more| == if result == Ran(Finished) then 1 else 0
      requires more != [] ==> more[0] != [] && more[0][0] == List(answers(|log.results|).now)
      ensures LoopHolds(answers, interval, LogNext(log, result, more, interval), result != Ran(StoreFailed))
    {
      var next := LogNext(log, result, more, interval);
      assert next.results == log.results + [result];
      assert next.cycles == log.cycles + more;
      assert LoopWent(answers, next.results) by {
        LoopWentNext(answers, log.results, result);
      }
      assert CyclesFinished(answers, next.results, next.finished, next.cycles) by {
        CyclesNext(answers, log.results, log.finished, log.cycles, more, result);
      }
      assert Slept(next.sleeps, next.cycles, interval) by {
        if more != [] {
          assert more == [more[0]];
          SleptNext(log.sleeps, log.cycles, more[0], interval);
        }
      }
      assert Ended(next.results, result != Ran(StoreFailed)) by {
        EndedNext(log.results, result);
      }
    }

    lemma LoopWentNext(answers: nat -> LoopTurn, results: seq<LoopResult>, result: LoopResult)
      requires LoopWent(answers, results) && LoopTurnWent(answers(|results|), result)
      ensures LoopWent(answers, results + [result])
    {
    }

    /** A turn that is not paused: a cycle, and if it came to its end, the sleep after it. */
    method CycleAndSleep(interval: int, answers: nat -> LoopTurn, turn: nat, runs: nat, ghost log: LoopLog,
                         ghost first: Book)
      returns (result: CycleResult, runs': nat, sleep: int, ghost log': LoopLog)
      requires Valid() && phase.Resting?
      requires turn == |log.results| && !answers(turn).paused && book.cycles == first.cycles + log.cycles
      requires LoopHolds(answers, interval, log, true) && runs == Streak(log.cycles)
      modifies this
      ensures Valid() && phase.Resting? && old(trace) <= trace
      ensures |log'.results| == turn + 1 && book.cycles == first.cycles + log'.cycles
      ensures LoopHolds(answers, interval, log', !result.StoreFailed?) && runs' == Streak(log'.cycles)
      ensures log'.sleeps == log.sleeps + if result.Finished? then [sleep] else []
    {
      ghost var more;
      var proxyOnly;
      proxyOnly, result, more := Cycle(answers(turn));
      runs', sleep := runs, 0;
      if result.Finished? {
        assert more == [more[0]];
        runs', sleep := AfterCycle(interval, runs, proxyOnly, log.cycles, more[0]);
      }
      LoopHoldsNext(answers, interval, log, Ran(result), more);
      log' := LogNext(log, Ran(result), more, interval);
      LogNextAdds(log, Ran(result), more, interval);
      assert first.cycles + log.cycles + more == first.cycles + (log.cycles + more);
    }

    /** Cycles, with sleeps in between, for as long as the context lasts: at most `turns` turns of the loop. */
    method RunLoop(interval: int, answers: nat -> LoopTurn, turns: nat)
      returns (sleeps: seq<int>, ok: bool, ghost log: LoopLog)
      requires Valid() && phase.Resting?
      modifies this
      ensures Valid() && phase.Resting? && old(trace) <= trace && book.cycles == old(book).cycles + log.cycles
      ensures LoopHolds(answers, interval, log, ok) && sleeps == log.sleeps
      ensures |log.results| <= turns && (ok ==> |log.results| == turns)
    {
      sleeps, ok, log := [], true, LoopLog([], [], [], []);
      var proxyFailureRuns, turn := 0, 0;
      while turn < turns && ok
        invariant turn <= turns && |log.results| == turn
        invariant Valid() && phase.Resting? && old(trace) <= trace && book.cycles == old(book).cycles + log.cycles
        invariant LoopHolds(answers, interval, log, ok) && sleeps == log.sleeps
        invariant proxyFailureRuns == Streak(log.cycles)
        decreases turns - turn
      {
        if answers(turn).paused {
          LoopHoldsNext(answers, interval, log, Parked, []);
          log := LogNext(log, Parked, [], interval);
        } else {
          var result, sleep;
          result, proxyFailureRuns, sleep, log :=
            CycleAndSleep(interval, answers, turn, proxyFailureRuns, log, old(book));
          ok := !result.StoreFailed?;
          if result.Finished? {
            sleeps := sleeps + [sleep];
          }
        }
        turn := turn + 1;
      }
    }
  }

  /** The turns of the daemon's loop; those that finished a cycle, its notes, and the sleep after it. */
  datatype LoopLog = LoopLog(results: seq<LoopResult>, finished: seq<nat>, cycles: seq<seq<Event>>, sleeps: seq<int>)

  ghost function LogNext(log: LoopLog, result: LoopResult, more: seq<seq<Event>>, interval: int): LoopLog {
    if more == [] then log.(results := log.results + [result])
    else
      LoopLog(log.results + [result], log.finished + [|log.results|], log.cycles + more,
        log.sleeps + [SleepAfter(log.cycles + more, interval)])
  }

  lemma LogNextAdds(log: LoopLog, result: LoopResult, more: seq<seq<Event>>, interval: int)
    ensures var next := LogNext(log, result, more, interval);
            && next.results == log.results + [result] && next.cycles == log.cycles + more
            && next.sleeps == log.sleeps + if more == [] then [] else [SleepAfter(log.cycles + more, interval)]
  {
    assert log.sleeps + [] == log.sleeps && log.cycles + [] == log.cycles;
  }

  /** Only a failing cycle ends the loop, and does so at once. */
  predicate Ended(results: seq<LoopResult>, ok: bool) {
    && (!ok ==> results != [])
    && forall i :: 0 <= i < |results| ==> (results[i] == Ran(StoreFailed) <==> !ok && i == |results| - 1)
  }

  lemma EndedNext(results: seq<LoopResult>, result: LoopResult)
    requires Ended(results, true)
    ensures Ended(results + [result], result != Ran(StoreFailed))
  {
  }

  /** `cycles` are those of the turns `finished`, in order, which are all that came to their end. */
  ghost predicate CyclesFinished(answers: nat -> LoopTurn, results: seq<LoopResult>, finished: seq<nat>,
                                 cycles: seq<seq<Event>>) {
    && |finished| == |cycles|
    && (forall i, j :: 0 <= i < j < |finished| ==> finished[i] < finished[j])
    && (forall i: nat :: i in finished <==> i < |results| && results[i] == Ran(Finished))
    && (forall j :: 0 <= j < |cycles| ==> cycles[j] != [] && cycles[j][0] == List(answers(finished[j]).now))
  }

  lemma CyclesNext(answers: nat -> LoopTurn, results: seq<LoopResult>, finished: seq<nat>, cycles: seq<seq<Event>>,
                   more: seq<seq<Event>>, result: LoopResult)
    requires CyclesFinished(answers, results, finished, cycles)
    requires |more| == if result == Ran(Finished) then 1 else 0
    requires more != [] ==> more[0] != [] && more[0][0] == List(answers(|results|).now)
    ensures CyclesFinished(answers, results + [result], if more == [] then finished else finished + [|results|],
                cycles + more)
  {
    if more == [] {
      assert cycles + more == cycles;
    } else {
      assert more == [more[0]];
      CycleNext(answers, results, finished, cycles, more[0]);
    }
  }

  lemma CycleNext(answers: nat -> LoopTurn, results: seq<LoopResult>, finished: seq<nat>, cycles: seq<seq<Event>>,
                  cycle: seq<Event>)
    requires CyclesFinished(answers, results, finished, cycles)
    requires cycle != [] && cycle[0] == List(answers(|results|).now)
    ensures CyclesFinished(answers, results + [Ran(Finished)], finished + [|results|], cycles + [cycle])
  {
    assert forall j :: 0 <= j < |finished| ==> finished[j] in finished;
    forall i: nat
      ensures i in finished + [|results|] <==> i < |results| + 1 && (results + [Ran(Finished)])[i] == Ran(Finished)
    {
    }
  }

  /** A plan's next rename is its next update. */
  lemma RenamesNext(renames: seq<Titles.Rename>, i: nat)
    requires i < |renames|
    ensures RenameCalls(renames[..i + 1]) == RenameCalls(renames[..i]) + [Event.Rename(renames[i].code, renames[i].to)]
  {
    assert renames[..i + 1][..i] == renames[..i];
  }

  /** Later outcomes leave the ledger of the earlier ones. */
  lemma {:induction false} LedgerSame(listing: seq<Share>, outcomes: seq<Outcome>, now: int, turns: nat -> ShareTurn,
                                      k: nat, outcome: Outcome)
    requires k <= |outcomes| < |listing|
    ensures Ledger(listing, outcomes + [outcome], now, turns, k) == Ledger(listing, outcomes, now, turns, k)
  {
    if k > 0 {
      LedgerSame(listing, outcomes, now, turns, k - 1, outcome);
    }
  }

  lemma LedgerNext(listing: seq<Share>, outcomes: seq<Outcome>, now: int, turns: nat -> ShareTurn, outcome: Outcome)
    requires |outcomes| < |listing|
    ensures var k := |outcomes|;
            && Ledger(listing, outcomes + [outcome], now, turns, k) == Ledger(listing, outcomes, now, turns, k)
            && Ledger(listing, outcomes + [outcome], now, turns, k + 1)
               == Ledger(listing, outcomes, now, turns, k) + Entry(listing[k], outcome, now, turns(k).clock)
  {
    LedgerSame(listing, outcomes, now, turns, |outcomes|, outcome);
  }

  /** The book after the turns of a cycle: an entry for each share got through, and no cycle finished. */
  ghost predicate Recorded(before: Book, after: Book, listing: seq<Share>, outcomes: seq<Outcome>, now: int,
                           turns: nat -> ShareTurn, result: CycleResult) {
    && |outcomes| <= |listing| && after.cycles == before.cycles
    && match result
       case Finished => after.notes == before.notes + Ledger(listing, outcomes, now, turns, |outcomes|)
       case _ => outcomes != [] && before.notes + Ledger(listing, outcomes, now, turns, |outcomes| - 1) <= after.notes
  }

  lemma RecordedNext(first: Book, before: Book, after: Book, listing: seq<Share>, outcomes: seq<Outcome>, now: int,
                     turns: nat -> ShareTurn, outcome: Outcome, result: CycleResult)
    requires Recorded(first, before, listing, outcomes, now, turns, Finished) && |outcomes| < |listing|
    requires NotedTurn(before, after, listing[|outcomes|], outcome, now, turns(|outcomes|), result)
    ensures Recorded(first, after, listing, outcomes + [outcome], now, turns, result)
  {
    LedgerNext(listing, outcomes, now, turns, outcome);
    assert (outcomes + [outcome])[|outcomes|] == outcome;
  }

  /** The outcomes of a ledger are those of its shares. */
  lemma {:induction false} LedgerReturns(listing: seq<Share>, outcomes: seq<Outcome>, now: int, turns: nat -> ShareTurn,
                                         k: nat, e: Event)
    requires k <= |listing| && k <= |outcomes|
    ensures e in Ledger(listing, outcomes, now, turns, k) && e.Return?
            <==> exists i :: 0 <= i < k && e == Return(outcomes[i])
  {
    if k > 0 {
      LedgerReturns(listing, outcomes, now, turns, k - 1, e);
    }
  }

  lemma {:induction false} RenamesOnly(renames: seq<Titles.Rename>, e: Event)
    ensures e in RenameCalls(renames) ==> e.Rename?
  {
    if renames != [] {
      RenamesOnly(renames[..|renames| - 1], e);
    }
  }

  function CycleNotes(listing: seq<Share>, outcomes: seq<Outcome>, now: int, turns: nat -> ShareTurn,
                      renames: seq<Titles.Rename>): seq<Event>
    requires |outcomes| == |listing|
  {
    [List(now)] + Ledger(listing, outcomes, now, turns, |listing|) + RenameCalls(renames)
  }

  lemma CycleReturns(listing: seq<Share>, outcomes: seq<Outcome>, now: int, turns: nat -> ShareTurn,
                     renames: seq<Titles.Rename>, e: Event)
    requires |outcomes| == |listing|
    ensures e.Return? ==> (e in CycleNotes(listing, outcomes, now, turns, renames) <==> e.outcome in outcomes)
  {
    if e.Return? {
      var entries := Ledger(listing, outcomes, now, turns, |listing|);
      LedgerReturns(listing, outcomes, now, turns, |listing|, e);
      RenamesOnly(renames, e);
      assert e in [List(now)] + entries + RenameCalls(renames) <==> e in entries;
    }
  }

  /** Whether a cycle went unanswered shows in the outcomes of its shares. */
  lemma LedgerAnswers(listing: seq<Share>, outcomes: seq<Outcome>, now: int, turns: nat -> ShareTurn,
                      renames: seq<Titles.Rename>)
    requires |outcomes| == |listing|
    ensures Unanswered(CycleNotes(listing, outcomes, now, turns, renames))
            <==> listing != [] && AllProxyLike(outcomes)
  {
    forall e: Event
      ensures e.Return? ==> (e in CycleNotes(listing, outcomes, now, turns, renames) <==> e.outcome in outcomes)
    {
      CycleReturns(listing, outcomes, now, turns, renames, e);
    }
    UnansweredAs(CycleNotes(listing, outcomes, now, turns, renames), outcomes);
  }

  lemma UnansweredAs(cycle: seq<Event>, outcomes: seq<Outcome>)
    requires forall e: Event :: e.Return? ==> (e in cycle <==> e.outcome in outcomes)
    ensures Unanswered(cycle) <==> outcomes != [] && AllProxyLike(outcomes)
  {
    forall o: Outcome | o in outcomes
      ensures Return(o) in cycle
    {
      assert Return(o).Return?;
    }
    if outcomes != [] {
      assert outcomes[0] in outcomes;
    }
  }

  lemma StreakNext(cycles: seq<seq<Event>>, cycle: seq<Event>)
    ensures Streak(cycles + [cycle]) == if Unanswered(cycle) then Streak(cycles) + 1 else 0
  {
    assert (cycles + [cycle])[..|cycles|] == cycles;
  }

  lemma SleptNext(sleeps: seq<int>, cycles: seq<seq<Event>>, cycle: seq<Event>, interval: int)
    requires Slept(sleeps, cycles, interval)
    ensures Slept(sleeps + [SleepAfter(cycles + [cycle], interval)], cycles + [cycle], interval)
  {
    var more := cycles + [cycle];
    forall i | 0 <= i < |more|
      ensures (sleeps + [SleepAfter(more, interval)])[i] == SleepAfter(more[..i + 1], interval)
    {
      assert more[..i + 1] == if i < |cycles| then cycles[..i + 1] else more;
    }
  }
}
