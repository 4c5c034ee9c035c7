/** What every run of the fleet does to a share's status, failures and retry time. */
module FleetLife {
  import opened Basics
  import opened Shares
  import opened Backoff
  import opened Lifecycle
  import opened Checkpoints
  import opened Crawler
  import opened CrawlAnswers
  import opened Fleet

  // ----- status and failures agree -----

  ghost predicate AllOk(shares: seq<Share>) {
    forall s :: s in shares ==> LifeOk(s)
  }

  /** A share is shelved though its row, reset since it was listed, has failed fewer than three times. */
  ghost predicate ShelvesEarly(w: World, e: Event) {
    e.Shelve? && Ready(w, e) && exists s :: s in w.shares && s.code == w.phase.job.listed.code && s.failureCount < 3
  }

  lemma RewrittenLife(w: World, e: Event, s: Share)
    requires LifeOk(s) && Ready(w, e)
    ensures LifeOk(Rewritten(w.phase, e, s)) <==> !(e.Shelve? && Handling(w.phase, s.code) && s.failureCount < 3)
  {
    match e
    case Upsert(_, _) => UpdatesKeepLife(s, 0, "");
    case Shelve(at) => UpdatesKeepLife(s, at, "");
    case WriteFailure(at) => UpdatesKeepLife(s, at, "");
    case _ =>
  }

  /** Every call but that one keeps status and failures in agreement. */
  lemma StepKeepsLife(w: World, e: Event)
    requires AllOk(w.shares)
    ensures AllOk(Step(w, e).shares) <==> !ShelvesEarly(w, e)
  {
    forall t | t in Step(w, e).shares && !ShelvesEarly(w, e)
      ensures LifeOk(t)
    {
      var s := RowOrigin(w, e, t);
      if Ready(w, e) && s in w.shares {
        RewrittenLife(w, e, s);
      }
    }
    if ShelvesEarly(w, e) {
      var s :| s in w.shares && s.code == w.phase.job.listed.code && s.failureCount < 3;
      RewrittenLife(w, e, s);
      var i :| 0 <= i < |w.shares| && w.shares[i] == s;
      assert Step(w, e).shares[i] in Step(w, e).shares;
    }
  }

  predicate OneReceive(w: World, e: Event) {
    e.Upsert? || e.Describe? ==> forall s :: s in w.shares && s.code == e.code ==> s.receiveCode == e.receive
  }

  /** A row's failures start again from zero. */
  predicate Zeroes(w: World, e: Event, code: string) {
    match e
    case Upsert(c, _) => c == code
    case Reactivate(c) => c == code
    case DropDuplicate(c, _) => c == code
    case Describe(c, _, _, _) => c == code && Creates(w, e)
    case _ => false
  }

  /**
   No share listed with three failures is reset before its outcome is recorded, and a code keeps to
   one receive code.
   */
  ghost predicate Calm(w: World, e: Event) {
    OneReceive(w, e) && forall l :: l in Listed(w.phase) && Zeroes(w, e, l.code) ==> l.failureCount < 3
  }

  /** A share listed with three failures, and still to be recorded, has three. */
  ghost predicate CountsAgree(w: World) {
    forall s, l ::
      s in w.shares && l in Listed(w.phase) && s.code == l.code && l.failureCount >= 3 ==> s.failureCount >= 3
  }

  /** Codes are unique in the table and in the shares still to be recorded. */
  ghost predicate Distinct(w: World) {
    UniqueCodes(w.shares) && UniqueCodes(Listed(w.phase))
  }

  lemma {:induction false} WithoutUnique(shares: seq<Share>, code: string)
    requires UniqueCodes(shares)
    ensures UniqueCodes(Without(shares, code))
  {
    if shares != [] {
      var n := |shares| - 1;
      WithoutUnique(shares[..n], code);
      forall i | 0 <= i < |Without(shares[..n], code)|
        ensures Without(shares[..n], code)[i].code != shares[n].code
      {
        WithoutExact(shares[..n], code, Without(shares[..n], code)[i]);
      }
    }
  }

  /** The call records the outcome of the share in hand. */
  predicate Records(e: Event) {
    e.MarkCrawled? || e.MarkDead? || e.MarkDuplicate? || e.Shelve? || e.WriteFailure?
  }

  /** The shares still to be recorded are unchanged, or one fewer, or none, or a new listing. */
  lemma ListedAfter(w: World, e: Event)
    requires Ready(w, e) && !e.List?
    ensures var before, after := Listed(w.phase), Listed(PhaseAfter(w, e));
            if Records(e) then after == w.phase.job.todo && before == [w.phase.job.listed] + after
            else after == before || after == []
  {
    match e
    case Begin(_) => assert w.phase.todo == [w.phase.todo[0]] + w.phase.todo[1..];
    case _ =>
  }

  lemma RewrittenCount(w: World, e: Event, s: Share)
    requires Ready(w, e) && s in w.shares && !Creates(w, e)
    ensures var t := Rewritten(w.phase, e, s);
            || s.failureCount <= t.failureCount
            || Zeroes(w, e, s.code)
            || (Records(e) && Handling(w.phase, s.code))
  {
  }

  lemma CodesKept(w: World, e: Event)
    requires !e.Delete? && !Creates(w, e)
    ensures |SharesAfter(w, e)| == |w.shares|
    ensures forall i :: 0 <= i < |w.shares| ==> SharesAfter(w, e)[i].code == w.shares[i].code
  {
    forall i | 0 <= i < |w.shares|
      ensures SharesAfter(w, e)[i].code == w.shares[i].code
    {
      assert SharesAfter(w, e)[i] == Rewritten(w.phase, e, w.shares[i]);
    }
  }

  lemma SharesStayUnique(w: World, e: Event)
    requires UniqueCodes(w.shares) && OneReceive(w, e)
    ensures UniqueCodes(SharesAfter(w, e))
  {
    if e.Delete? {
      WithoutUnique(w.shares, e.code);
    } else if Creates(w, e) {
      forall i | 0 <= i < |w.shares| ensures w.shares[i].code != e.code {
        assert w.shares[i] in w.shares;
      }
    } else {
      CodesKept(w, e);
    }
  }

  lemma ListedStaysUnique(w: World, e: Event)
    requires Distinct(w) && Ready(w, e)
    ensures UniqueCodes(Listed(PhaseAfter(w, e)))
  {
    if e.List? {
      ListingUnique(w.shares, e.now);
    } else {
      ListedAfter(w, e);
      if Records(e) {
        var todo := w.phase.job.todo;
        forall i, j | 0 <= i < j < |todo| ensures todo[i].code != todo[j].code {
          assert Listed(w.phase)[i + 1] == todo[i] && Listed(w.phase)[j + 1] == todo[j];
        }
      }
    }
  }

  lemma StepDistinct(w: World, e: Event)
    requires Distinct(w) && OneReceive(w, e)
    ensures Distinct(Step(w, e))
  {
    if Ready(w, e) {
      SharesStayUnique(w, e);
      ListedStaysUnique(w, e);
    }
  }

  lemma UniqueRow(shares: seq<Share>, s: Share, t: Share)
    requires UniqueCodes(shares) && s in shares && t in shares && s.code == t.code
    ensures s == t
  {
  }

  /** The share in hand is not among those left to do. */
  lemma NotAgain(w: World, l: Share)
    requires Distinct(w) && InFlight(w.phase) && l in w.phase.job.todo
    ensures !Handling(w.phase, l.code)
  {
    var todo := w.phase.job.todo;
    var i :| 0 <= i < |todo| && todo[i] == l;
    assert Listed(w.phase)[i + 1] == l && Listed(w.phase)[0] == w.phase.job.listed;
  }

  lemma StepCountsAgree(w: World, e: Event)
    requires Distinct(w) && CountsAgree(w) && Calm(w, e)
    ensures CountsAgree(Step(w, e))
  {
    if Ready(w, e) {
      forall t, l | t in Step(w, e).shares && l in Listed(PhaseAfter(w, e)) && t.code == l.code && l.failureCount >= 3
        ensures t.failureCount >= 3
      {
        if e.List? {
          ListedIffDue(w.shares, e.now, l);
          CodesKept(w, e);
          ListKeepsRows(w, e, t);
          UniqueRow(w.shares, t, l);
        } else {
          RowKeepsCount(w, e, t, l);
        }
      }
    }
  }

  lemma ListKeepsRows(w: World, e: Event, t: Share)
    requires e.List? && t in Step(w, e).shares
    ensures t in w.shares
  {
    var s := RowOrigin(w, e, t);
  }

  lemma RowKeepsCount(w: World, e: Event, t: Share, l: Share)
    requires Distinct(w) && CountsAgree(w) && Calm(w, e) && Ready(w, e) && !e.List?
    requires t in Step(w, e).shares && l in Listed(PhaseAfter(w, e)) && t.code == l.code
    requires l.failureCount >= 3
    ensures t.failureCount >= 3
  {
    ListedAfter(w, e);
    if Records(e) {
      NotAgain(w, l);
    }
    assert l in Listed(w.phase);
    var s := RowOrigin(w, e, t);
    if !Creates(w, e) {
      RewrittenCount(w, e, s);
    } else {
      CreatedOrKept(w, e, s, t, l);
    }
  }

  lemma CreatedNotListed(w: World, e: Event, l: Share)
    requires Calm(w, e) && Creates(w, e) && l in Listed(w.phase) && l.failureCount >= 3
    ensures l.code != e.code
  {
    assert Zeroes(w, e, e.code);
  }

  lemma CreatedOrKept(w: World, e: Event, s: Share, t: Share, l: Share)
    requires CountsAgree(w) && Calm(w, e) && Creates(w, e) && l in Listed(w.phase) && t.code == l.code
    requires l.failureCount >= 3 && (t == Created(w, e) || (s in w.shares && t == Rewritten(w.phase, e, s)))
    ensures t.failureCount >= 3
  {
    CreatedNotListed(w, e, l);
    CreatesRewritesNothing(w, e, s);
  }

  // ----- over whole runs -----

  ghost predicate CalmRun(w: World, es: seq<Event>) {
    forall i :: 0 <= i < |es| ==> Calm(At(w, es, i), es[i])
  }

  /** Nothing is being crawled or about to be. */
  ghost predicate Quiet(w: World) {
    w.phase.Resting? && UniqueCodes(w.shares)
  }

  lemma {:induction false} CalmRunAgrees(w: World, es: seq<Event>, n: nat)
    requires n <= |es| && Quiet(w) && CalmRun(w, es)
    ensures Distinct(At(w, es, n)) && CountsAgree(At(w, es, n))
  {
    if n > 0 {
      CalmRunAgrees(w, es, n - 1);
      AtNext(w, es, n - 1);
      StepDistinct(At(w, es, n - 1), es[n - 1]);
      StepCountsAgree(At(w, es, n - 1), es[n - 1]);
    }
  }

  /** A share listed with three failures still has them when it is shelved, unless it was reset in between. */
  lemma CalmNeverShelvesEarly(w: World, e: Event)
    requires CountsAgree(w) && Ready(w, e)
    ensures !ShelvesEarly(w, e)
  {
    if e.Shelve? {
      assert w.phase.job.listed in Listed(w.phase);
    }
  }

  /**
   In every run in which no share listed with three failures is reset before its outcome is
   recorded: ACTIVE, COMPLETED and DUPLICATE mean no failures and no retry time, STALE one or two
   failures, QUARANTINE three or more.
   */
  lemma {:induction false} LifecycleInvariant(w: World, es: seq<Event>, n: nat)
    requires n <= |es| && Quiet(w) && AllOk(w.shares) && CalmRun(w, es)
    ensures AllOk(At(w, es, n).shares)
  {
    if n > 0 {
      LifecycleInvariant(w, es, n - 1);
      AtNext(w, es, n - 1);
      CalmRunAgrees(w, es, n - 1);
      StepKeepsLife(At(w, es, n - 1), es[n - 1]);
      if Ready(At(w, es, n - 1), es[n - 1]) {
        CalmNeverShelvesEarly(At(w, es, n - 1), es[n - 1]);
      }
    }
  }

  /** A share in QUARANTINE is listed, taken up, and reactivated while its crawl runs. */
  lemma ReactivatedInFlight(s: Share, now: int) returns (es: seq<Event>)
    requires s.status == Quarantine && s.retryAfter <= now
    ensures es == [List(now), Begin(s), Reactivate(s.code)]
    ensures Path(Single(s, Resting), es)
    ensures RunTo(Single(s, Resting), es) == Single(Reactivated(s), Crawling(Job(s, [], UNTOUCHED, false, false)))
  {
    var job, w := Job(s, [], UNTOUCHED, false, false), Single(s, Resting);
    assert [s][..0] == [] && Listing([s], now) == [s] by { assert Listing([], now) == []; }
    es := SingleStep(w, [], List(now), s, Resting, s, Between([s]));
    es := SingleStep(w, es, Begin(s), s, Between([s]), s, Crawling(job));
    es := SingleStep(w, es, Reactivate(s.code), s, Crawling(job), Reactivated(s), Crawling(job));
  }

  lemma ThenReturned(w: World, es0: seq<Event>, r: Share, job: Job, empty: Outcome) returns (es: seq<Event>)
    requires Path(w, es0) && RunTo(w, es0) == Single(r, Crawling(job)) && job.listed.code == r.code
    requires !job.drained && !empty.Drained? && !empty.Duplicate?
    ensures es == es0 + [Return(empty), Check]
    ensures Path(w, es) && RunTo(w, es) == Single(r, Recording(job, empty))
  {
    es := SingleStep(w, es0, Return(empty), r, Crawling(job), r, Checking(job, empty));
    es := SingleStep(w, es, Check, r, Checking(job, empty), r, Recording(job, empty));
  }

  lemma ThenShelved(w: World, es0: seq<Event>, r: Share, job: Job, at: int) returns (es: seq<Event>)
    requires Path(w, es0) && RunTo(w, es0) == Single(r, Crawling(job)) && job.listed.code == r.code
    requires !job.drained && job.listed.failureCount == 3
    ensures es == es0 + [Return(Outcome.Failed(EmptyData)), Check, Shelve(at)]
    ensures Path(w, es) && RunTo(w, es) == Single(Shelved(r, at), Between(job.todo))
  {
    var empty := Outcome.Failed(EmptyData);
    es := ThenReturned(w, es0, r, job, empty);
    es := SingleStep(w, es, Shelve(at), r, Recording(job, empty), Shelved(r, at), Between(job.todo));
  }

  /** With a reset in between it can fail: a reactivated share ends in QUARANTINE with no failures. */
  lemma ResetBeforeShelving(s: Share, now: int, at: int) returns (es: seq<Event>)
    requires s.status == Quarantine && s.failureCount == 3 && s.retryAfter <= now
    ensures Quiet(Single(s, Resting)) && AllOk([s]) && Path(Single(s, Resting), es)
    ensures es == [List(now), Begin(s), Reactivate(s.code)] + [Return(Outcome.Failed(EmptyData)), Check, Shelve(at)]
    ensures RunTo(Single(s, Resting), es).shares == [Shelved(Reactivated(s), at)]
            && !LifeOk(Shelved(Reactivated(s), at))
  {
    es := ReactivatedInFlight(s, now);
    es := ThenShelved(Single(s, Resting), es, Reactivated(s), Job(s, [], UNTOUCHED, false, false), at);
  }

  function Single(s: Share, p: Phase): World {
    World([s], map[], s.id + 1, p)
  }

  /** One more step of a run over a single row. */
  lemma SingleStep(w: World, es: seq<Event>, e: Event, s: Share, p: Phase, t: Share, p': Phase)
    returns (es': seq<Event>)
    requires Path(w, es) && RunTo(w, es) == Single(s, p)
    requires Ready(Single(s, p), e) && (e.List? || e.Begin? || e.Reactivate? || e.Return? || e.Check? || e.Shelve?)
    requires t == Rewritten(p, e, s) && t.id == s.id
    requires HasCode([s], s.code) ==> p' == PhaseAfter(Single(s, p), e)
    ensures es' == es + [e] && Path(w, es') && RunTo(w, es') == Single(t, p')
  {
    es' := es + [e];
    Extend(w, es, e);
    assert HasCode([s], s.code) by { assert [s][0].code == s.code; }
    assert SharesAfter(Single(s, p), e) == [t];
  }
}
