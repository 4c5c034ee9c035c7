/**
 The runs in which a COMPLETED share misses files: one for each call that `FleetComplete.Breaks`
 names, for every share and every page at which it can happen, with exactly what is left.
 */
module FleetLosses {
  import opened Basics
  import opened Snapshots
  import opened Checkpoints
  import opened Shares
  import opened Lifecycle
  import opened Crawler
  import opened CrawlAnswers
  import opened Fleet
  import opened FleetComplete
  import opened CrawlHistory
  import opened CrawlLoss
  import CrawlRun

  // ----- the data of a crawl stopped before a page -----

  ghost predicate BeforePage(r: Remote, k: nat) {
    IdsNonempty(r) && CrawlRun.After(r, CrawlRun.Start(), k).active.At?
  }

  /** What is stored when the page of step `k` is about to be fetched. */
  ghost function Found(r: Remote, k: nat): Durable
    requires BeforePage(r, k)
  {
    var here := CrawlRun.After(r, CrawlRun.Start(), k);
    Durable(Some(PrePage(here)), here.rows)
  }

  /** The same place with the rows deleted. */
  ghost function Bare(r: Remote, k: nat): Durable
    requires BeforePage(r, k)
  {
    Found(r, k).(rows := map[])
  }

  /** What a crawl of it ends with. */
  ghost function Rest(r: Remote, k: nat): Durable {
    Ending(r, RowsToCome(r, k))
  }

  lemma FoundReached(r: Remote, k: nat)
    requires BeforePage(r, k)
    ensures CrawlsTo(r, UNTOUCHED, Found(r, k)) && SteersAt(r, Found(r, k), k)
  {
    var start := Resume(UNTOUCHED);
    assert start == CrawlRun.Start();
    assert StoppedAt(r, UNTOUCHED, Found(r, k), CrawlRun.Log(r, start, k), k);
    assert Interrupted(r, UNTOUCHED, Found(r, k), CrawlRun.Log(r, start, k));
    ActiveReachable(r, k);
  }

  lemma DrainsShort(r: Remote, d: Durable, n: nat)
    requires SteersAt(r, d, n)
    ensures DrainsTo(r, d, Ending(r, d.rows + RowsToCome(r, n)))
  {
    var d', log := SomeCompletion(r, d);
    LossExact(r, d, d', log, n);
  }

  lemma BareDrains(r: Remote, k: nat)
    requires BeforePage(r, k)
    ensures CrawlsTo(r, Bare(r, k), Bare(r, k)) && DrainsTo(r, Bare(r, k), Rest(r, k))
            && DrainsTo(r, Rest(r, k), Rest(r, k))
  {
    FoundReached(r, k);
    assert Interrupted(r, Bare(r, k), Bare(r, k), []);
    assert SteersAt(r, Bare(r, k), k);
    assert map[] + RowsToCome(r, k) == RowsToCome(r, k);
    DrainsShort(r, Bare(r, k), k);
    EndingSteers(r, RowsToCome(r, k));
    ResumedEndLoss(r, Rest(r, k), CrawlRun.RunLength(r), 0);
    assert RowsToCome(r, k) + map[] == RowsToCome(r, k);
    DrainsShort(r, Rest(r, k), CrawlRun.RunLength(r));
  }

  // ----- runs over one share -----

  /** The run `es` leads to `w`, which holds these rows, this data of the code, and this phase. */
  ghost predicate Reached(lib: Library, es: seq<Event>, w: World, shares: seq<Share>, code: string, d: Durable,
                          p: Phase) {
    match w
    case World(rows, _, _, phase) =>
      OnTrace(lib, FOUNDED, es, w) && rows == shares && phase == p && DataOf(w, code) == d
  }

  predicate Registered(s: Share, code: string) {
    s.code == code && s.status.Active? && s.retryAfter <= 0
  }

  /** A run that marked a share COMPLETED with just these rows. */
  ghost predicate EndsWith(lib: Library, es: seq<Event>, w: World, code: string, rows: CrawlRun.Rows) {
    match w
    case World(shares, _, _, _) =>
      && OnTrace(lib, FOUNDED, es, w)
      && |shares| == 1 && shares[0].code == code && shares[0].status.Completed?
      && DataOf(w, code).rows == rows
  }

  /** One more call. */
  lemma Call(lib: Library, es: seq<Event>, w: World, e: Event) returns (w': World)
    requires OnTrace(lib, FOUNDED, es, w) && Ready(w, e) && Faithful(lib, w, e)
    ensures w' == Step(w, e) && OnTrace(lib, FOUNDED, es + [e], w')
  {
    w' := Step(w, e);
    TraceNext(lib, FOUNDED, es, w, e);
  }

  lemma Register(lib: Library, es: seq<Event>, w: World, code: string, receive: string, d: Durable, p: Phase)
    returns (w': World, s: Share)
    requires Reached(lib, es, w, [], code, d, p)
    ensures Registered(s, code) && Reached(lib, es + [Upsert(code, receive)], w', [s], code, d, p)
  {
    w' := Call(lib, es, w, Upsert(code, receive));
    s := NewRow(w.nextId, code, receive, "", 0);
  }

  lemma OneRow(w: World, e: Event, s: Share)
    requires w.shares == [s] && !e.Delete? && !Creates(w, e)
    ensures SharesAfter(w, e) == [Rewritten(w.phase, e, s)]
  {
  }

  function TakenUp(s: Share, d: Durable): Job {
    Job(s, [], d, false, false)
  }

  lemma Take(lib: Library, es: seq<Event>, w: World, s: Share, code: string, d: Durable) returns (w': World)
    requires Reached(lib, es, w, [s], code, d, Resting) && Registered(s, code)
    ensures Reached(lib, es + [List(0)] + [Begin(s)], w', [s], code, d, Crawling(TakenUp(s, d)))
  {
    assert [s][..0] == [] && Listing([s], 0) == [s] by { assert Listing([], 0) == []; }
    OneRow(w, List(0), s);
    w' := Call(lib, es, w, List(0));
    OneRow(w', Begin(s), s);
    w' := Call(lib, es + [List(0)], w', Begin(s));
  }

  function Stored(job: Job, d: Durable, d': Durable): Job {
    job.(pos := d', wrote := job.wrote || d'.rows != d.rows)
  }

  lemma Store(lib: Library, es: seq<Event>, w: World, shares: seq<Share>, code: string, d: Durable, job: Job,
              d': Durable)
    returns (w': World)
    requires Reached(lib, es, w, shares, code, d, Crawling(job)) && job.listed.code == code && !job.drained
    requires CrawlsTo(lib(code), job.pos, d')
    ensures Reached(lib, es + [Write(d', d')], w', shares, code, d', Crawling(Stored(job, d, d')))
  {
    w' := Call(lib, es, w, Write(d', d'));
    assert SharesAfter(w, Write(d', d')) == shares;
  }

  function Drains(job: Job, d: Durable, d': Durable): Job {
    Stored(job, d, d').(drained := true)
  }

  lemma Finish(lib: Library, es: seq<Event>, w: World, shares: seq<Share>, code: string, d: Durable, job: Job,
               d': Durable)
    returns (w': World)
    requires Reached(lib, es, w, shares, code, d, Crawling(job)) && job.listed.code == code && !job.drained
    requires DrainsTo(lib(code), job.pos, d')
    ensures Reached(lib, es + [Drain(d')], w', shares, code, d', Crawling(Drains(job, d, d')))
  {
    w' := Call(lib, es, w, Drain(d'));
    assert SharesAfter(w, Drain(d')) == shares;
  }

  function Deprived(p: Phase, code: string): Phase {
    if Handling(p, code) then p.(job := Stripped(p.job)) else p
  }

  lemma Remove(lib: Library, es: seq<Event>, w: World, s: Share, code: string, d: Durable, p: Phase) returns (w': World)
    requires Reached(lib, es, w, [s], code, d, p) && s.code == code
    ensures Reached(lib, es + [Delete(code)], w', [], code, UNTOUCHED, Deprived(p, code))
  {
    assert [s][..0] == [] && Without([s], code) == [] by { assert Without([], code) == []; }
    w' := Call(lib, es, w, Delete(code));
  }

  lemma Stop(lib: Library, es: seq<Event>, w: World, shares: seq<Share>, code: string, d: Durable, p: Phase)
    returns (w': World)
    requires Reached(lib, es, w, shares, code, d, p)
    ensures Reached(lib, es + [Abort], w', shares, code, d, Resting)
  {
    w' := Call(lib, es, w, Abort);
    assert SharesAfter(w, Abort) == shares;
  }

  lemma Hand(lib: Library, es: seq<Event>, w: World, s: Share, code: string, d: Durable, job: Job) returns (w': World)
    requires Reached(lib, es, w, [s], code, d, Crawling(job)) && job.drained && job.listed.code == code == s.code
    ensures Reached(lib, es + [Return(Drained)] + [Check], w', [s], code, d, Recording(job, Drained))
  {
    assert HasCode([s], code) by { assert [s][0].code == code; }
    OneRow(w, Return(Drained), s);
    w' := Call(lib, es, w, Return(Drained));
    OneRow(w', Check, s);
    w' := Call(lib, es + [Return(Drained)], w', Check);
  }

  lemma Record(lib: Library, es: seq<Event>, w: World, s: Share, code: string, d: Durable, job: Job, at: int)
    returns (w': World)
    requires Reached(lib, es, w, [s], code, d, Recording(job, Drained)) && job.listed.code == code == s.code
    ensures EndsWith(lib, es + [MarkCrawled(at)], w', code, d.rows)
  {
    OneRow(w, MarkCrawled(at), s);
    w' := Call(lib, es, w, MarkCrawled(at));
  }

  /** A drained crawl returns, finds a row of its share, and marks it. */
  lemma Mark(lib: Library, es: seq<Event>, w: World, s: Share, code: string, d: Durable, job: Job, at: int)
    returns (w': World)
    requires Reached(lib, es, w, [s], code, d, Crawling(job)) && job.drained && job.listed.code == code == s.code
    ensures EndsWith(lib, es + [Return(Drained)] + [Check] + [MarkCrawled(at)], w', code, d.rows)
  {
    w' := Hand(lib, es, w, s, code, d, job);
    w' := Record(lib, es + [Return(Drained)] + [Check], w', s, code, d, job, at);
  }

  /** A registered share at rest is crawled to the end of what its data leads to. */
  lemma Complete(lib: Library, es: seq<Event>, w: World, s: Share, code: string, d: Durable, d': Durable, at: int)
    returns (w': World)
    requires Reached(lib, es, w, [s], code, d, Resting) && Registered(s, code) && DrainsTo(lib(code), d, d')
    ensures EndsWith(lib,
                es + [List(0)] + [Begin(s)] + [Drain(d')] + [Return(Drained)] + [Check] + [MarkCrawled(at)], w',
                     code, d'.rows)
  {
    w' := Take(lib, es, w, s, code, d);
    w' := Finish(lib, es + [List(0)] + [Begin(s)], w', [s], code, d, TakenUp(s, d), d');
    w' := Mark(lib, es + [List(0)] + [Begin(s)] + [Drain(d')], w', s, code, d', Drains(TakenUp(s, d), d, d'), at);
  }

  // ----- the losses -----

  /** A share is registered, taken up, and crawled up to the page of step `k`. */
  ghost function Halfway(r: Remote, s: Share, code: string, receive: string, k: nat): seq<Event>
    requires BeforePage(r, k)
  {
    [Upsert(code, receive)] + [List(0)] + [Begin(s)] + [Write(Found(r, k), Found(r, k))]
  }

  lemma CrawledHalfway(lib: Library, code: string, receive: string, k: nat) returns (w: World, s: Share, job: Job)
    requires BeforePage(lib(code), k)
    ensures job == Stored(TakenUp(s, UNTOUCHED), UNTOUCHED, Found(lib(code), k)) && Registered(s, code)
    ensures Reached(lib, Halfway(lib(code), s, code, receive, k), w, [s], code, Found(lib(code), k), Crawling(job))
  {
    var d, es := Found(lib(code), k), [Upsert(code, receive)];
    FoundReached(lib(code), k);
    assert OnTrace(lib, FOUNDED, [], FOUNDED);
    assert [] + es == es;
    w, s := Register(lib, [], FOUNDED, code, receive, UNTOUCHED, Resting);
    w := Take(lib, es, w, s, code, UNTOUCHED);
    w := Store(lib, es + [List(0)] + [Begin(s)], w, [s], code, UNTOUCHED, TakenUp(s, UNTOUCHED), d);
    job := Stored(TakenUp(s, UNTOUCHED), UNTOUCHED, d);
  }

  /** Deleted and registered again while its crawl runs: only the pages from there on are kept. */
  lemma ReRegisteredUnderCrawl(lib: Library, code: string, receive: string, k: nat, at: int)
    returns (w: World, s: Share, t: Share)
    requires BeforePage(lib(code), k)
    ensures EndsWith(lib,
                     Halfway(lib(code), s, code, receive, k) + [Delete(code)] + [Upsert(code, receive)]
                     + [Drain(Rest(lib(code), k))] + [Return(Drained)] + [Check] + [MarkCrawled(at)],
                     w, code, RowsToCome(lib(code), k))
  {
    var job;
    var d, last := Found(lib(code), k), Rest(lib(code), k);
    BareDrains(lib(code), k);
    w, s, job := CrawledHalfway(lib, code, receive, k);
    var es := Halfway(lib(code), s, code, receive, k);
    w := Remove(lib, es, w, s, code, d, Crawling(job));
    job, es := Stripped(job), es + [Delete(code)];
    w, t := Register(lib, es, w, code, receive, UNTOUCHED, Crawling(job));
    es := es + [Upsert(code, receive)];
    w := Finish(lib, es, w, [t], code, UNTOUCHED, job, last);
    w := Mark(lib, es + [Drain(last)], w, t, code, last, Drains(job, UNTOUCHED, last), at);
  }

  /** Deleted while its crawl runs, the crawl ending before it is purged, then registered again. */
  lemma AbandonedCrawl(lib: Library, code: string, receive: string, k: nat, at: int)
    returns (w: World, s: Share, t: Share)
    requires BeforePage(lib(code), k)
    ensures EndsWith(lib,
                     Halfway(lib(code), s, code, receive, k) + [Delete(code)] + [Drain(Rest(lib(code), k))] + [Abort]
                     + [Upsert(code, receive)] + [List(0)] + [Begin(t)] + [Drain(Rest(lib(code), k))]
                     + [Return(Drained)] + [Check] + [MarkCrawled(at)],
                     w, code, RowsToCome(lib(code), k))
  {
    var job;
    var d, last := Found(lib(code), k), Rest(lib(code), k);
    BareDrains(lib(code), k);
    w, s, job := CrawledHalfway(lib, code, receive, k);
    var es := Halfway(lib(code), s, code, receive, k);
    w := Remove(lib, es, w, s, code, d, Crawling(job));
    job, es := Stripped(job), es + [Delete(code)];
    w := Finish(lib, es, w, [], code, UNTOUCHED, job, last);
    w := Stop(lib, es + [Drain(last)], w, [], code, last, Crawling(Drains(job, UNTOUCHED, last)));
    es := es + [Drain(last)] + [Abort];
    w, t := Register(lib, es, w, code, receive, last, Resting);
    w := Complete(lib, es + [Upsert(code, receive)], w, t, code, last, last, at);
  }

  /** The size clean-up drops the files of a share halfway through, which is reactivated later. */
  lemma DroppedBySize(lib: Library, code: string, receive: string, k: nat, canonical: string, at: int)
    returns (w: World, s: Share, t: Share)
    requires BeforePage(lib(code), k)
    ensures EndsWith(lib,
                     Halfway(lib(code), s, code, receive, k) + [Abort] + [DropDuplicate(code, canonical)]
                     + [Reactivate(code)] + [List(0)] + [Begin(t)] + [Drain(Rest(lib(code), k))]
                     + [Return(Drained)] + [Check] + [MarkCrawled(at)],
                     w, code, RowsToCome(lib(code), k))
  {
    var job;
    var d, last := Found(lib(code), k), Rest(lib(code), k);
    BareDrains(lib(code), k);
    w, s, job := CrawledHalfway(lib, code, receive, k);
    var es := Halfway(lib(code), s, code, receive, k);
    w := Stop(lib, es, w, [s], code, d, Crawling(job));
    es := es + [Abort];
    w, t := DropAndReactivate(lib, es, w, s, code, d, canonical);
    es := es + [DropDuplicate(code, canonical)] + [Reactivate(code)];
    w := Complete(lib, es, w, t, code, Bare(lib(code), k), last, at);
  }

  lemma DropAndReactivate(lib: Library, es: seq<Event>, w: World, s: Share, code: string, d: Durable, canonical: string)
    returns (w': World, s': Share)
    requires Reached(lib, es, w, [s], code, d, Resting) && s.code == code
    ensures Registered(s', code)
    ensures Reached(lib, es + [DropDuplicate(code, canonical)] + [Reactivate(code)], w', [s'], code, d.(rows := map[]),
                    Resting)
  {
    OneRow(w, DropDuplicate(code, canonical), s);
    w' := Call(lib, es, w, DropDuplicate(code, canonical));
    s' := MarkedDuplicate(s, canonical);
    OneRow(w', Reactivate(code), s');
    w' := Call(lib, es + [DropDuplicate(code, canonical)], w', Reactivate(code));
    s' := Reactivated(s');
  }

  /**
   Halfway through a second crawl the share is deleted, and that crawl finds a duplicate: it is
   settled without a purge, leaving its checkpoint for the next registration.
   */
  lemma DuplicateUnpurged(lib: Library, code: string, receive: string, k: nat, canonical: string, at: int)
    returns (w: World, s: Share, t: Share)
    requires BeforePage(lib(code), k)
    ensures EndsWith(lib,
                     Halfway(lib(code), s, code, receive, k) + [Abort] + [List(0)] + [Begin(s)] + [Delete(code)]
                     + [Write(Bare(lib(code), k), Bare(lib(code), k))] + [Return(Duplicate(canonical))]
                     + [MarkDuplicate] + [Event.Rest] + [Upsert(code, receive)] + [List(0)] + [Begin(t)]
                     + [Drain(Rest(lib(code), k))] + [Return(Drained)] + [Check] + [MarkCrawled(at)],
                     w, code, RowsToCome(lib(code), k))
  {
    var job;
    var d, bare := Found(lib(code), k), Bare(lib(code), k);
    BareDrains(lib(code), k);
    w, s, job := CrawledHalfway(lib, code, receive, k);
    var es := Halfway(lib(code), s, code, receive, k);
    w := Stop(lib, es, w, [s], code, d, Crawling(job));
    w := Take(lib, es + [Abort], w, s, code, d);
    es := es + [Abort] + [List(0)] + [Begin(s)];
    w := Remove(lib, es, w, s, code, d, Crawling(TakenUp(s, d)));
    job, es := Stripped(TakenUp(s, d)), es + [Delete(code)];
    w := Store(lib, es, w, [], code, UNTOUCHED, job, bare);
    w := Settle(lib, es + [Write(bare, bare)], w, code, bare, Stored(job, UNTOUCHED, bare), canonical);
    es := es + [Write(bare, bare)] + [Return(Duplicate(canonical))] + [MarkDuplicate] + [Event.Rest];
    w, t := Register(lib, es, w, code, receive, bare, Resting);
    w := Complete(lib, es + [Upsert(code, receive)], w, t, code, bare, Rest(lib(code), k), at);
  }

  /** A duplicate is settled, and with it the cycle. */
  lemma Settle(lib: Library, es: seq<Event>, w: World, code: string, d: Durable, job: Job, canonical: string)
    returns (w': World)
    requires Reached(lib, es, w, [], code, d, Crawling(job)) && !job.drained && !job.wrote && job.todo == []
    ensures Reached(lib, es + [Return(Duplicate(canonical))] + [MarkDuplicate] + [Event.Rest], w', [], code, d, Resting)
  {
    w' := Call(lib, es, w, Return(Duplicate(canonical)));
    assert w'.shares == [];
    w' := Call(lib, es + [Return(Duplicate(canonical))], w', MarkDuplicate);
    assert w'.shares == [];
    w' := Call(lib, es + [Return(Duplicate(canonical))] + [MarkDuplicate], w', Event.Rest);
    assert w'.shares == [];
  }

  ghost function AllStored(lib: Library, code: string): Durable {
    Ending(lib(code), WholeRows(lib, code))
  }

  /**
   Deleted after it was listed and registered again between the purge's look and its deletes: the
   whole crawl is purged, and the share marked COMPLETED with nothing stored.
   */
  lemma PurgedWhenRegistered(lib: Library, code: string, receive: string, at: int) returns (w: World, s: Share)
    ensures EndsWith(lib,
                     [Upsert(code, receive)] + [List(0)] + [Delete(code)] + [Begin(s)] + [Drain(AllStored(lib, code))]
                     + [Return(Drained)] + [Check] + [Upsert(code, receive)] + [Purge] + [MarkCrawled(at)],
                     w, code, map[])
  {
    var t;
    var d, es := AllStored(lib, code), [Upsert(code, receive)];
    assert OnTrace(lib, FOUNDED, [], FOUNDED);
    assert [] + es == es;
    w, s := Register(lib, [], FOUNDED, code, receive, UNTOUCHED, Resting);
    w := ListedThenDeleted(lib, es, w, s, code);
    es := es + [List(0)] + [Delete(code)] + [Begin(s)];
    UntouchedDrains(lib(code));
    w := Finish(lib, es, w, [], code, UNTOUCHED, TakenUp(s, UNTOUCHED), d);
    var job := Drains(TakenUp(s, UNTOUCHED), UNTOUCHED, d);
    w := CheckedMissing(lib, es + [Drain(d)], w, code, d, job);
    es := es + [Drain(d)] + [Return(Drained)] + [Check];
    w, t := Register(lib, es, w, code, receive, d, Purging(job, Drained));
    w := PurgedPresent(lib, es + [Upsert(code, receive)], w, t, code, d, job);
    w := Record(lib, es + [Upsert(code, receive)] + [Purge], w, t, code, UNTOUCHED, Stripped(job), at);
  }

  lemma UntouchedDrains(r: Remote)
    ensures DrainsTo(r, UNTOUCHED, Ending(r, CrawlRun.End(r).rows))
  {
    UntouchedSteers(r);
    var d', log := SomeCompletion(r, UNTOUCHED);
    LossExact(r, UNTOUCHED, d', log, 0);
    StoredPlusToCome(r, 0);
  }

  lemma ListedThenDeleted(lib: Library, es: seq<Event>, w: World, s: Share, code: string) returns (w': World)
    requires Reached(lib, es, w, [s], code, UNTOUCHED, Resting) && Registered(s, code)
    ensures Reached(lib, es + [List(0)] + [Delete(code)] + [Begin(s)], w', [], code, UNTOUCHED,
                    Crawling(TakenUp(s, UNTOUCHED)))
  {
    assert [s][..0] == [] && Listing([s], 0) == [s] by { assert Listing([], 0) == []; }
    OneRow(w, List(0), s);
    w' := Call(lib, es, w, List(0));
    w' := Remove(lib, es + [List(0)], w', s, code, UNTOUCHED, Between([s]));
    w' := Call(lib, es + [List(0)] + [Delete(code)], w', Begin(s));
    assert w'.shares == [];
  }

  lemma CheckedMissing(lib: Library, es: seq<Event>, w: World, code: string, d: Durable, job: Job) returns (w': World)
    requires Reached(lib, es, w, [], code, d, Crawling(job)) && job.drained && job.listed.code == code
    ensures Reached(lib, es + [Return(Drained)] + [Check], w', [], code, d, Purging(job, Drained))
  {
    w' := Call(lib, es, w, Return(Drained));
    assert w'.shares == [];
    w' := Call(lib, es + [Return(Drained)], w', Check);
    assert w'.shares == [];
  }

  lemma PurgedPresent(lib: Library, es: seq<Event>, w: World, s: Share, code: string, d: Durable, job: Job)
    returns (w': World)
    requires Reached(lib, es, w, [s], code, d, Purging(job, Drained)) && job.listed.code == code
    ensures Reached(lib, es + [Purge], w', [s], code, UNTOUCHED, Recording(Stripped(job), Drained))
  {
    OneRow(w, Purge, s);
    w' := Call(lib, es, w, Purge);
  }

  // ----- a share that loses a file -----

  function MediaFile(id: string): Node {
    Node(id, id, "mkv", 1, false, "", 0)
  }

  /** Two files in the root, one on each of two pages. */
  function TwoPages(): Remote {
    Remote(map["0" := 2], map[("0", 0) := [MediaFile("a")], ("0", 1) := [MediaFile("b")]], "two pages", 2, 1,
        (ext: string) => true)
  }

  lemma NoDirectories(p: Cid, offset: nat)
    ensures DirIds(TwoPages().Nodes(p, offset)) == {}
  {
  }

  lemma NoChild(p: Cid, c: Cid)
    ensures !Child(TwoPages(), p, c)
  {
    if Child(TwoPages(), p, c) {
      var offset: nat :| TwoPages().PageOffset(p, offset) && c in DirIds(TwoPages().Nodes(p, offset));
      NoDirectories(p, offset);
    }
  }

  lemma {:induction false} OnlyRoot(c: Cid, n: nat)
    ensures Within(TwoPages(), c, n) ==> c == ROOT_CID
  {
    if n > 0 {
      OnlyRoot(c, n - 1);
      forall p ensures !Child(TwoPages(), p, c) {
        NoChild(p, c);
      }
    }
  }

  lemma OnePage(id: string)
    ensures CrawlRun.PageRows(TwoPages(), [MediaFile(id)], "0", 1) == map[id := CrawlRun.Row(MediaFile(id), "0", 1)]
    ensures CrawlRun.DirTasks([MediaFile(id)], 1) == []
  {
    assert [MediaFile(id)][..0] == [];
  }

  function RootPage(offset: nat, rows: CrawlRun.Rows): CrawlRun.State {
    CrawlRun.State(CrawlRun.Cursor.At(CrawlRun.ROOT_TASK, offset), [], {}, rows)
  }

  lemma SecondPage() returns (rows: CrawlRun.Rows)
    ensures CrawlRun.After(TwoPages(), CrawlRun.Start(), 2) == RootPage(1, rows) && "a" in rows
  {
    var r, start := TwoPages(), CrawlRun.Start();
    assert CrawlRun.After(r, start, 0) == start;
    CrawlRun.AfterNext(r, start, 0);
    assert CrawlRun.After(r, start, 1) == RootPage(0, map[]);
    CrawlRun.AfterNext(r, start, 1);
    OnePage("a");
    rows := CrawlRun.Visit(r, RootPage(0, map[])).rows;
  }

  lemma LastPage(rows: CrawlRun.Rows)
    ensures var st := CrawlRun.Next(TwoPages(), RootPage(1, rows));
            CrawlRun.Done(st) && st.rows.Keys == rows.Keys + {"b"}
  {
    OnePage("b");
  }

  /** Before its second page the first file has nowhere left to come from. */
  lemma SecondPageLoses()
    ensures BeforePage(TwoPages(), 2)
    ensures "a" in CrawlRun.End(TwoPages()).rows && "a" !in RowsToCome(TwoPages(), 2)
  {
    var r := TwoPages();
    forall n: nat ensures !Within(r, "", n) { OnlyRoot("", n); }
    var rows := SecondPage();
    LastPage(rows);
    LastPage(map[]);
    CrawlRun.AfterNext(r, CrawlRun.Start(), 2);
    CrawlRun.DoneUnique(r, CrawlRun.Start(), 3, CrawlRun.RunLength(r));
    assert CrawlRun.After(r, BareAt(r, 2), 0) == RootPage(1, map[]);
    CrawlRun.AfterNext(r, BareAt(r, 2), 0);
    RowsWhenDone(r, 2, 1);
  }
}
