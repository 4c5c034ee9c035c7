/**
 What the world outside answers to one call of CrawlShare, and how the call ends on those answers,
 told step by step along the run without the loops.
 */
module CrawlAnswers {
  import opened Snapshots
  import opened CrawlRun
  import opened Checkpoints

  /** Error classes of the lister and the store. */
  datatype CrawlError = Retryable | ProxyFailure | DeadShare | EmptyData | OtherError

  datatype Outcome =
    | Drained
    | Paused
    | Duplicate(canonical: string)
    | Failed(error: CrawlError)

  /** One attempt at a page. */
  datatype PageReply = Served | Refused(error: CrawlError)

  /** The answer of FindDuplicateShare, which a call asks at most once. */
  datatype DuplicateReply = NoDuplicate | DuplicateOf(canonical: string) | QueryFailed(error: CrawlError)

  /** The answers at one step of a call, each used if the step gets that far. */
  datatype Turn = Turn(
    alive: bool,                 // the context, before a directory is taken up
    pageAlive: bool,             // the context, before a page
    paused: bool,                // the pause check, before a page
    saved: bool,                 // the checkpoint before the page is saved
    replies: nat -> PageReply,   // the lister, attempt by attempt
    described: bool,             // title and size are stored
    stored: bool,                // the page's rows are stored
    advanced: bool)              // the checkpoint behind the page is saved

  datatype Answers = Answers(loaded: bool, turns: nat -> Turn, duplicate: DuplicateReply, finished: bool)

  /** What is fixed for a call: the crawler's settings, the share's title, and the answers. */
  datatype Setting = Setting(remote: Remote, retries: nat, minSize: int, title: string, answers: Answers)

  /** Whether a call goes on after a step. */
  datatype Signal = Proceed | Stop(outcome: Outcome)

  predicate PageRetryable(e: CrawlError) {
    e.Retryable? || e.EmptyData? || e.ProxyFailure?
  }

  /** The attempt at a page that decides: one that serves it, fails for good, or is the last allowed. */
  ghost predicate Decisive(replies: nat -> PageReply, retries: nat, k: nat) {
    && k <= retries
    && (replies(k).Served? || k == retries || !PageRetryable(replies(k).error))
    && (forall i: nat :: i < k ==> replies(i).Refused? && PageRetryable(replies(i).error))
  }

  function Decided(replies: nat -> PageReply, retries: nat, k: nat): PageReply
    requires k <= retries
    decreases retries - k
  {
    if replies(k).Served? || k == retries || !PageRetryable(replies(k).error) then replies(k)
    else Decided(replies, retries, k + 1)
  }

  lemma {:induction false} DecidedAt(replies: nat -> PageReply, retries: nat, k: nat, j: nat)
    requires Decisive(replies, retries, k) && j <= k
    ensures Decided(replies, retries, j) == replies(k)
    decreases k - j
  {
    if j < k {
      DecidedAt(replies, retries, k, j + 1);
    }
  }

  // ----- one step -----

  predicate LargeEnough(s: Setting) {
    0 < s.minSize <= s.remote.fileSize
  }

  /** The duplicate gate: on the call's first page, for a share at least as large as a positive threshold. */
  predicate Gated(s: Setting, pages: nat) {
    pages == 0 && LargeEnough(s)
  }

  predicate Describes(s: Setting, pages: nat) {
    pages == 0 && s.title == "" && s.remote.shareTitle != ""
  }

  /** Up to the metadata; `pages` were fetched before. */
  function OpenSignal(s: Setting, turn: Turn, pages: nat): Signal {
    var reply := Decided(turn.replies, s.retries, 0);
    if !turn.saved then Stop(Failed(OtherError))
    else if reply.Refused? then Stop(Failed(reply.error))
    else if Gated(s, pages) && s.answers.duplicate.QueryFailed? then Stop(Failed(s.answers.duplicate.error))
    else if Gated(s, pages) && s.answers.duplicate.DuplicateOf? then Stop(Duplicate(s.answers.duplicate.canonical))
    else if Describes(s, pages) && !turn.described then Stop(Failed(OtherError))
    else Proceed
  }

  predicate Fetches(s: Setting, turn: Turn) {
    turn.saved && Decided(turn.replies, s.retries, 0).Served?
  }

  /** A last page with nothing on it is not stored. */
  function PageSignal(s: Setting, turn: Turn, page: Page, pages: nat): Signal {
    var begun := OpenSignal(s, turn, pages);
    if begun.Stop? then begun
    else if page.nodes == [] && !page.hasMore then Proceed
    else if !turn.stored || !turn.advanced then Stop(Failed(OtherError))
    else Proceed
  }

  function CheckedPage(s: Setting, turn: Turn, page: Page, pages: nat): Signal {
    if !turn.pageAlive then Stop(Failed(OtherError))
    else if turn.paused then Stop(Outcome.Paused)
    else PageSignal(s, turn, page, pages)
  }

  /** The step of the run that starts in `st`, after `n` steps and `pages` pages of the call. */
  function StepSignal(s: Setting, st: State, n: nat, pages: nat): Signal {
    var turn := s.answers.turns(n);
    if (st.active.Idle? || n == 0) && !turn.alive then Stop(Failed(OtherError))
    else if st.active.Idle? then Proceed
    else CheckedPage(s, turn, s.remote.PageAt(st.active.task.cid, st.active.offset), pages)
  }

  /** The page the step fetched, if it got so far. */
  function StepFetch(s: Setting, st: State, n: nat): seq<Fetch> {
    var turn := s.answers.turns(n);
    if st.active.At? && (n == 0 ==> turn.alive) && turn.pageAlive && !turn.paused && Fetches(s, turn)
    then FetchOf(st)
    else []
  }

  // ----- the call -----

  ghost predicate ClearAt(s: Setting, d0: Durable, m: nat) {
    var st := After(s.remote, Resume(d0), m);
    !Done(st) && StepSignal(s, st, m, |Log(s.remote, Resume(d0), m)|) == Proceed
  }

  ghost predicate ClearTo(s: Setting, d0: Durable, n: nat) {
    forall m: nat :: m < n ==> ClearAt(s, d0, m)
  }

  lemma ClearNext(s: Setting, d0: Durable, n: nat)
    requires ClearTo(s, d0, n) && !Done(After(s.remote, Resume(d0), n))
    requires StepSignal(s, After(s.remote, Resume(d0), n), n, |Log(s.remote, Resume(d0), n)|) == Proceed
    ensures ClearTo(s, d0, n + 1)
  {
    assert ClearAt(s, d0, n);
  }

  /** The call went through its first `n` steps; there its run was done, or a step failed. */
  ghost predicate EndsAt(s: Setting, d0: Durable, outcome: Outcome, log: seq<Fetch>, n: nat) {
    var before := Log(s.remote, Resume(d0), n);
    match After(s.remote, Resume(d0), n)
    case State(active, queue, visited, rows) =>
      var st := State(active, queue, visited, rows);
      && ClearTo(s, d0, n)
      && if Done(st)
         then outcome == (if s.answers.finished then Drained else Failed(OtherError)) && log == before
         else StepSignal(s, st, n, |before|) == Stop(outcome) && log == before + StepFetch(s, st, n)
  }

  /** How the call ends, and what it fetched. */
  ghost predicate Ends(s: Setting, d0: Durable, outcome: Outcome, log: seq<Fetch>) {
    if s.answers.loaded then exists n: nat :: EndsAt(s, d0, outcome, log, n)
    else outcome == Failed(OtherError) && log == []
  }

  // ----- what that means -----

  lemma EndStops(s: Setting, d0: Durable, outcome: Outcome, log: seq<Fetch>, n: nat)
    requires EndsAt(s, d0, outcome, log, n)
    ensures !ClearAt(s, d0, n)
  {
  }

  lemma EndsAtOneStep(s: Setting, d0: Durable, a: Outcome, logA: seq<Fetch>, m: nat,
                      b: Outcome, logB: seq<Fetch>, n: nat)
    requires EndsAt(s, d0, a, logA, m) && EndsAt(s, d0, b, logB, n)
    ensures m == n
  {
    assert ClearTo(s, d0, m) && ClearTo(s, d0, n);
    EndStops(s, d0, a, logA, m);
    EndStops(s, d0, b, logB, n);
  }

  /** The answers leave one way to end. */
  lemma EndsOneWay(s: Setting, d0: Durable, a: Outcome, logA: seq<Fetch>, b: Outcome, logB: seq<Fetch>)
    requires Ends(s, d0, a, logA) && Ends(s, d0, b, logB)
    ensures a == b && logA == logB
  {
    if s.answers.loaded {
      var m: nat :| EndsAt(s, d0, a, logA, m);
      var n: nat :| EndsAt(s, d0, b, logB, n);
      EndsAtOneStep(s, d0, a, logA, m, b, logB, n);
    }
  }

  lemma {:induction false} FirstPage(s: Setting, d0: Durable, n: nat) returns (m: nat)
    requires Log(s.remote, Resume(d0), n) != []
    ensures m < n && Log(s.remote, Resume(d0), m) == [] && After(s.remote, Resume(d0), m).active.At?
  {
    AfterNext(s.remote, Resume(d0), n - 1);
    if Log(s.remote, Resume(d0), n - 1) == [] {
      m := n - 1;
    } else {
      m := FirstPage(s, d0, n - 1);
    }
  }

  /** How the gate decides for a call that has fetched a page. */
  predicate GateKept(s: Setting, outcome: Outcome, pages: nat) {
    match s.answers.duplicate
    case DuplicateOf(canonical) => outcome == Duplicate(canonical) && pages == 1
    case QueryFailed(error) => outcome == Failed(error) && pages == 1
    case NoDuplicate => !outcome.Duplicate?
  }

  lemma GateStep(s: Setting, st: State, n: nat, pages: nat, outcome: Outcome)
    requires StepSignal(s, st, n, pages) == Stop(outcome)
    ensures LargeEnough(s) && pages == 0 && StepFetch(s, st, n) != [] ==> GateKept(s, outcome, 1)
    ensures outcome.Duplicate? ==> LargeEnough(s) && pages == 0 && StepFetch(s, st, n) != []
  {
  }

  lemma GatePassed(s: Setting, st: State, n: nat)
    requires StepSignal(s, st, n, 0) == Proceed && st.active.At? && LargeEnough(s)
    ensures s.answers.duplicate.NoDuplicate?
  {
  }

  lemma GateAfter(s: Setting, d0: Durable, outcome: Outcome, log: seq<Fetch>, n: nat)
    requires EndsAt(s, d0, outcome, log, n) && Log(s.remote, Resume(d0), n) != []
    ensures LargeEnough(s) ==> s.answers.duplicate.NoDuplicate?
    ensures !outcome.Duplicate?
  {
    var m := FirstPage(s, d0, n);
    assert ClearAt(s, d0, m);
    if LargeEnough(s) {
      GatePassed(s, After(s.remote, Resume(d0), m), m);
    }
    if outcome.Duplicate? {
      GateStep(s, After(s.remote, Resume(d0), n), n, |Log(s.remote, Resume(d0), n)|, outcome);
    }
  }

  lemma GateHere(s: Setting, d0: Durable, outcome: Outcome, log: seq<Fetch>, n: nat)
    requires EndsAt(s, d0, outcome, log, n) && Log(s.remote, Resume(d0), n) == []
    ensures log != [] && LargeEnough(s) ==> GateKept(s, outcome, |log|)
    ensures outcome.Duplicate? ==> log != [] && LargeEnough(s)
  {
    var st := After(s.remote, Resume(d0), n);
    assert [] + StepFetch(s, st, n) == StepFetch(s, st, n);
    if !Done(st) {
      GateStep(s, st, n, 0, outcome);
    }
  }

  /**
   The duplicate gate decides as soon as a page of a large enough share was fetched: a duplicate
   ends the call at once, a failed query too, and only the answer that there is none lets it go on.
   No other share is ever declared a duplicate.
   */
  lemma GateDecides(s: Setting, d0: Durable, outcome: Outcome, log: seq<Fetch>)
    requires Ends(s, d0, outcome, log)
    ensures log != [] && LargeEnough(s) ==> GateKept(s, outcome, |log|)
    ensures outcome.Duplicate? ==> log != [] && LargeEnough(s)
  {
    if s.answers.loaded {
      var n: nat :| EndsAt(s, d0, outcome, log, n);
      if Log(s.remote, Resume(d0), n) != [] {
        GateAfter(s, d0, outcome, log, n);
      } else {
        GateHere(s, d0, outcome, log, n);
      }
    }
  }

  /** Nothing goes wrong at a step. */
  ghost predicate Well(s: Setting, turn: Turn) {
    && turn.alive && turn.pageAlive && !turn.paused && turn.saved && turn.described && turn.stored && turn.advanced
    && Decided(turn.replies, s.retries, 0).Served?
  }

  /** A call to which everything answers well drains, unless its share is a duplicate. */
  lemma AllWellDrains(s: Setting, d0: Durable, outcome: Outcome, log: seq<Fetch>)
    requires Ends(s, d0, outcome, log)
    requires s.answers.loaded && s.answers.finished && forall n: nat :: Well(s, s.answers.turns(n))
    requires LargeEnough(s) ==> s.answers.duplicate.NoDuplicate?
    ensures outcome == Drained
  {
    var n: nat :| EndsAt(s, d0, outcome, log, n);
    assert Well(s, s.answers.turns(n));
  }
}
