/**
 What COMPLETED promises, over every run of the fleet: the share's stored files are its whole
 snapshot. One invariant carries it, and the calls that break that invariant are named exactly.
 */
module FleetComplete {
  import opened Basics
  import opened Snapshots
  import opened Checkpoints
  import opened Shares
  import opened Lifecycle
  import opened Crawler
  import opened CrawlAnswers
  import opened Fleet
  import opened FleetOrphans
  import opened CrawlHistory
  import opened CrawlLoss
  import CrawlRun
  import CrawlTheorems

  ghost predicate NamedDirectories(lib: Library) {
    forall code :: IdsNonempty(lib(code))
  }

  ghost function WholeRows(lib: Library, code: string): CrawlRun.Rows {
    CrawlRun.End(lib(code)).rows
  }

  // ----- where every crawl stands -----

  /** `a` and `b` stand at steps of the run, `b` not before `a`. */
  ghost predicate InStep(r: Remote, a: Durable, b: Durable) {
    exists m: nat, n: nat :: m <= n && SteersAt(r, a, m) && SteersAt(r, b, n)
  }

  ghost predicate Steered(r: Remote, d: Durable) {
    exists n: nat :: SteersAt(r, d, n)
  }

  /** A crawl of it stores no more rows: it is at its end, or the snapshot has none. */
  ghost predicate Still(r: Remote, d: Durable) {
    || CrawlRun.End(r).rows == map[]
    || exists n: nat :: SteersAt(r, d, n) && CrawlRun.Done(CrawlRun.After(r, CrawlRun.Start(), n))
  }

  /**
   Checkpoints stand on the run of their share, and the crawl in hand, which has the stored rows,
   not behind its checkpoint.
   */
  ghost predicate Tracks(lib: Library, w: World) {
    && (forall code :: Steered(lib(code), DataOf(w, code)))
    && (InFlight(w.phase) ==> TracksJob(lib, w, w.phase.job))
    && (w.phase.Purging? ==> !HasCompleted(w, w.phase.job.listed.code))
    && OutcomeTells(w.phase)
  }

  /** A crawl returned nil exactly when it saved its final checkpoint. */
  predicate OutcomeTells(p: Phase) {
    InFlight(p) && !p.Crawling? ==> (p.outcome.Drained? <==> p.job.drained)
  }

  ghost predicate TracksJob(lib: Library, w: World, job: Job) {
    match job
    case Job(listed, _, pos, _, drained) =>
      && InStep(lib(listed.code), DataOf(w, listed.code), pos)
      && pos.rows == DataOf(w, listed.code).rows
      && (drained ==> Still(lib(listed.code), pos))
      && (drained ==> pos.rows == map[] || Still(lib(listed.code), DataOf(w, listed.code)))
  }

  // ----- what registered shares can count on -----

  /** The crawl in hand may still mark its share COMPLETED. */
  predicate Live(p: Phase) {
    p.Crawling? || (InFlight(p) && p.job.drained)
  }

  /** Nothing is lost for good: the share's data, and the crawl in hand, still lead to the whole snapshot. */
  ghost predicate CanFinish(lib: Library, w: World, code: string) {
    && Mendable(lib(code), DataOf(w, code))
    && (Handling(w.phase, code) && Live(w.phase) ==> Mendable(lib(code), w.phase.job.pos))
  }

  ghost predicate HasCompleted(w: World, code: string) {
    exists s :: s in w.shares && s.code == code && s.status.Completed?
  }

  /** The rows of a COMPLETED share are its snapshot's, and no crawl will change them. */
  ghost predicate IsWhole(lib: Library, w: World, code: string) {
    && DataOf(w, code).rows == WholeRows(lib, code)
    && Still(lib(code), DataOf(w, code))
    && (Handling(w.phase, code) ==> Still(lib(code), w.phase.job.pos))
  }

  /** Every registered share can still be completed, and every COMPLETED one is complete. */
  ghost predicate Sound(lib: Library, w: World) {
    forall code ::
      && (HasCode(w.shares, code) ==> CanFinish(lib, w, code))
      && (HasCompleted(w, code) ==> IsWhole(lib, w, code))
  }

  // ----- the calls that break it -----

  /** Rows that neither the data nor the pages its checkpoint, or the crawl in hand, still has to come will give. */
  ghost predicate Lossy(lib: Library, p: Phase, code: string, d: Durable, pos: Durable) {
    LostRows(lib(code), d) || (Handling(p, code) && Live(p) && LostRows(lib(code), pos))
  }

  /**
   A share is registered, by whomever, while its data or the crawl in hand has lost rows; or a
   registered share's rows are deleted and are needed: by the clean-up by size, or by a purge that
   found the share missing before it was registered again.
   */
  ghost predicate Breaks(lib: Library, w: World, e: Event) {
    var p := w.phase;
    match e
    case DropDuplicate(code, _) =>
      HasCode(w.shares, code)
      && Lossy(lib, p, code, DataOf(w, code).(rows := map[]),
          if InFlight(p) then p.job.pos.(rows := map[]) else UNTOUCHED)
    case Purge =>
      && p.Purging? && p.job.drained && HasCode(w.shares, p.job.listed.code)
      && WholeRows(lib, p.job.listed.code) != map[]
    case _ =>
      && Creates(w, e)
      && Lossy(lib, p, e.code, DataOf(w, e.code), if InFlight(p) then p.job.pos else UNTOUCHED)
  }

  // ----- one call on one share's data -----

  lemma MendableNotLost(r: Remote, d: Durable)
    requires Steered(r, d)
    ensures Mendable(r, d) <==> !LostRows(r, d)
  {
    var n: nat :| SteersAt(r, d, n);
    MendableExact(r, d, n);
  }

  lemma UntouchedSteers(r: Remote)
    ensures SteersAt(r, UNTOUCHED, 0) && Mendable(r, UNTOUCHED)
  {
    UntouchedOnRun(r);
    OnRunMendable(r, UNTOUCHED, 0);
  }

  lemma StillExact(r: Remote, d: Durable)
    requires Still(r, d) && Steered(r, d)
    ensures Mendable(r, d) <==> d.rows == CrawlRun.End(r).rows
  {
    if CrawlRun.End(r).rows == map[] {
      var n: nat :| SteersAt(r, d, n);
      MendableExact(r, d, n);
      StoredPlusToCome(r, n);
      assert d.rows + map[] == d.rows;
    } else {
      var n: nat :| SteersAt(r, d, n) && CrawlRun.Done(CrawlRun.After(r, CrawlRun.Start(), n));
      MendableExact(r, d, n);
      ResumedEndLoss(r, d, n, 0);
      assert d.rows + map[] == d.rows;
    }
  }

  /** The rest of an interrupted crawl: what it can still lead to is what it could. */
  lemma CrawlKeeps(r: Remote, pos: Durable, d: Durable)
    requires IdsNonempty(r) && Steered(r, pos) && CrawlsTo(r, pos, d)
    ensures Steered(r, d) && (Mendable(r, pos) ==> Mendable(r, d))
    ensures Still(r, pos) ==> Still(r, d)
  {
    var n: nat :| SteersAt(r, pos, n)
        && (CrawlRun.End(r).rows == map[] || !Still(r, pos) || CrawlRun.Done(CrawlRun.After(r, CrawlRun.Start(), n)));
    var log :| Interrupted(r, pos, d, log);
    var n' := InterruptedLoss(r, pos, d, log, n);
    MendableExact(r, pos, n);
    MendableExact(r, d, n');
    if CrawlRun.Done(CrawlRun.After(r, CrawlRun.Start(), n)) {
      NothingFromEnd(r, pos, d, log, n);
    }
  }

  lemma NothingFromEnd(r: Remote, pos: Durable, d: Durable, log: seq<CrawlRun.Fetch>, n: nat)
    requires SteersAt(r, pos, n) && CrawlRun.Done(CrawlRun.After(r, CrawlRun.Start(), n)) && Interrupted(r, pos, d, log)
    ensures d == pos
  {
    if d != pos {
      var i: nat :| StoppedAt(r, pos, d, log, i);
      ResumedEndLoss(r, pos, n, i);
      assert false;
    }
  }

  lemma PageKeeps(r: Remote, before: Durable, pos: Durable, d: Durable, pos': Durable)
    requires IdsNonempty(r) && InStep(r, before, pos) && pos.rows == before.rows && StoresPage(r, before, pos, d, pos')
    ensures InStep(r, d, pos')
    ensures Mendable(r, before) ==> Mendable(r, d)
    ensures Mendable(r, pos) ==> Mendable(r, pos')
  {
    var m: nat, n: nat :| m <= n && SteersAt(r, before, m) && SteersAt(r, pos, n);
    var n' := PastPage(r, pos, n);
    CursorSteers(r, pos, n);
    PageStoredBehind(r, pos.rows, m, Resume(pos), n);
    assert SteersAt(r, d, m);
    MendableExact(r, before, m);
    MendableExact(r, d, m);
    MendableExact(r, pos, n);
    MendableExact(r, pos', n');
  }

  /** With the snapshot empty or the crawl at its end, no page is left to store. */
  lemma StillPage(r: Remote, before: Durable, pos: Durable, d: Durable, pos': Durable)
    requires IdsNonempty(r) && InStep(r, before, pos) && pos.rows == before.rows && StoresPage(r, before, pos, d, pos')
    requires Still(r, pos) && Mendable(r, before)
    ensures CrawlRun.End(r).rows == map[] && d.rows == map[]
  {
    StillHasNoPage(r, pos);
    PageKeeps(r, before, pos, d, pos');
    StillExact(r, d);
  }

  lemma StillHasNoPage(r: Remote, pos: Durable)
    requires Still(r, pos)
    ensures Resume(pos).active.Idle? || CrawlRun.End(r).rows == map[]
  {
  }

  /** One write of the crawl in hand. */
  ghost predicate WritesTo(r: Remote, before: Durable, pos: Durable, d: Durable, pos': Durable) {
    (CrawlsTo(r, pos, d) && pos' == d) || StoresPage(r, before, pos, d, pos')
  }

  lemma WriteKeeps(r: Remote, before: Durable, pos: Durable, d: Durable, pos': Durable)
    requires IdsNonempty(r) && InStep(r, before, pos) && pos.rows == before.rows && WritesTo(r, before, pos, d, pos')
    ensures InStep(r, d, pos') && pos'.rows == d.rows
    ensures Mendable(r, before) && Mendable(r, pos) ==> Mendable(r, d) && Mendable(r, pos')
    ensures Mendable(r, before) && Mendable(r, pos) && Still(r, before) && Still(r, pos) ==>
              d.rows == CrawlRun.End(r).rows && Still(r, d) && Still(r, pos')
  {
    if CrawlsTo(r, pos, d) && pos' == d {
      CrawlKeeps(r, pos, d);
      if Mendable(r, pos) && Still(r, pos) {
        StillExact(r, d);
      }
    } else {
      PageKeeps(r, before, pos, d, pos');
      if Mendable(r, before) && Still(r, pos) {
        StillPage(r, before, pos, d, pos');
      }
    }
  }

  lemma DrainKeeps(r: Remote, pos: Durable, d: Durable)
    requires Steered(r, pos) && DrainsTo(r, pos, d)
    ensures InStep(r, d, d) && Still(r, d)
    ensures Mendable(r, pos) ==> Mendable(r, d) && d.rows == CrawlRun.End(r).rows
  {
    var n: nat :| SteersAt(r, pos, n);
    var log :| Checkpoints.Completed(r, pos, d, log);
    LossExact(r, pos, d, log, n);
    EndingSteers(r, d.rows);
    StillExact(r, d);
  }

  // ----- one step: where crawls stand -----

  lemma DataChange(w: World, e: Event, code: string)
    requires Ready(w, e)
    ensures var before, after := DataOf(w, code), DataOf(Step(w, e), code);
            if e.Delete? && e.code == code then after == UNTOUCHED
            else if e.DropDuplicate? && e.code == code then after == before.(rows := map[])
            else if e.Purge? && Handling(w.phase, code) then after == UNTOUCHED
            else if (e.Write? || e.Drain?) && Handling(w.phase, code) then after == e.d
            else after == before
  {
  }

  /** What becomes of the crawl in hand. */
  lemma JobChange(w: World, e: Event)
    requires Ready(w, e) && InFlight(PhaseAfter(w, e))
    ensures var job := PhaseAfter(w, e).job;
            if e.Begin? then job.pos == DataOf(w, job.listed.code) && !job.drained
            else
              && InFlight(w.phase) && job.listed == w.phase.job.listed
              && (job.drained <==> w.phase.job.drained || e.Drain?)
              && job.pos == (if e.Write? then e.pos
                             else if e.Drain? then e.d
                             else if e.Purge? || ((e.Delete? || e.DropDuplicate?) && e.code == job.listed.code)
                             then w.phase.job.pos.(rows := map[])
                             else w.phase.job.pos)
  {
  }

  lemma RewrittenCompleted(w: World, e: Event, s: Share)
    requires Ready(w, e) && Rewritten(w.phase, e, s).status.Completed?
    ensures s.status.Completed? || (e.MarkCrawled? && Handling(w.phase, s.code))
    ensures !(e.DropDuplicate? && e.code == s.code)
  {
  }

  /** A share is COMPLETED because it was, or because its crawl just drained. */
  lemma CompletedBefore(w: World, e: Event, code: string)
    requires Ready(w, e) && HasCompleted(Step(w, e), code)
    ensures !((e.Delete? || e.DropDuplicate?) && e.code == code)
    ensures HasCompleted(w, code) || (e.MarkCrawled? && Handling(w.phase, code))
  {
    var t :| t in Step(w, e).shares && t.code == code && t.status.Completed?;
    var s := RowOrigin(w, e, t);
    if s in w.shares {
      if Creates(w, e) {
        CreatesRewritesNothing(w, e, s);
      } else {
        RewrittenCompleted(w, e, s);
      }
    }
  }

  lemma DroppedSteers(r: Remote, a: Durable, b: Durable)
    requires InStep(r, a, b)
    ensures InStep(r, a.(rows := map[]), b.(rows := map[])) && InStep(r, UNTOUCHED, b.(rows := map[]))
    ensures Still(r, b) ==> Still(r, b.(rows := map[]))
  {
    var m: nat, n: nat :| m <= n && SteersAt(r, a, m) && SteersAt(r, b, n);
    UntouchedSteers(r);
    assert SteersAt(r, a.(rows := map[]), m) && SteersAt(r, b.(rows := map[]), n);
    if Still(r, b) && CrawlRun.End(r).rows != map[] {
      var k: nat :| SteersAt(r, b, k) && CrawlRun.Done(CrawlRun.After(r, CrawlRun.Start(), k));
      assert SteersAt(r, b.(rows := map[]), k);
    }
  }

  lemma StepSteered(lib: Library, w: World, e: Event, code: string)
    requires NamedDirectories(lib) && Tracks(lib, w) && Ready(w, e) && Faithful(lib, w, e)
    ensures Steered(lib(code), DataOf(Step(w, e), code))
  {
    var r := lib(code);
    DataChange(w, e, code);
    UntouchedSteers(r);
    if Handling(w.phase, code) && e.Write? {
      WriteKeeps(r, DataOf(w, code), w.phase.job.pos, e.d, e.pos);
    } else if Handling(w.phase, code) && e.Drain? {
      DrainKeeps(r, w.phase.job.pos, e.d);
    } else if e.DropDuplicate? && e.code == code {
      var n: nat :| SteersAt(r, DataOf(w, code), n);
      assert SteersAt(r, DataOf(w, code).(rows := map[]), n);
    }
  }

  lemma StepTracksJob(lib: Library, w: World, e: Event)
    requires NamedDirectories(lib) && Tracks(lib, w) && Ready(w, e) && Faithful(lib, w, e) && InFlight(PhaseAfter(w, e))
    ensures TracksJob(lib, Step(w, e), PhaseAfter(w, e).job)
  {
    var job := PhaseAfter(w, e).job;
    var code := job.listed.code;
    var r := lib(code);
    DataChange(w, e, code);
    JobChange(w, e);
    if e.Begin? {
      var n: nat :| SteersAt(r, DataOf(w, code), n);
      assert InStep(r, DataOf(w, code), DataOf(w, code));
    } else if e.Write? {
      WriteKeeps(r, DataOf(w, code), w.phase.job.pos, e.d, e.pos);
    } else if e.Drain? {
      DrainKeeps(r, w.phase.job.pos, e.d);
    } else {
      DroppedSteers(r, DataOf(w, code), w.phase.job.pos);
    }
  }

  lemma StepTracks(lib: Library, w: World, e: Event)
    requires NamedDirectories(lib) && Tracks(lib, w) && Ready(w, e) && Faithful(lib, w, e)
    ensures Tracks(lib, Step(w, e))
  {
    forall code ensures Steered(lib(code), DataOf(Step(w, e), code)) {
      StepSteered(lib, w, e, code);
    }
    if InFlight(PhaseAfter(w, e)) {
      StepTracksJob(lib, w, e);
    }
    StepPurging(w, e);
    OutcomeStays(w, e);
  }

  lemma OutcomeStays(w: World, e: Event)
    requires OutcomeTells(w.phase) && Ready(w, e)
    ensures OutcomeTells(PhaseAfter(w, e))
  {
  }

  lemma StepPurging(w: World, e: Event)
    requires Ready(w, e) && (w.phase.Purging? ==> !HasCompleted(w, w.phase.job.listed.code))
    ensures Step(w, e).phase.Purging? ==> !HasCompleted(Step(w, e), Step(w, e).phase.job.listed.code)
  {
    if Step(w, e).phase.Purging? {
      var code := Step(w, e).phase.job.listed.code;
      HasCodeIn(w.shares, code);
      if HasCompleted(Step(w, e), code) {
        CompletedBefore(w, e, code);
        assert false;
      }
    }
  }

  // ----- one step: what registered shares can count on -----

  lemma HandledBefore(w: World, e: Event, code: string)
    requires Ready(w, e) && Handling(PhaseAfter(w, e), code) && !e.Begin?
    ensures Handling(w.phase, code) && (Live(PhaseAfter(w, e)) ==> Live(w.phase))
  {
  }

  lemma DataMendable(lib: Library, w: World, e: Event, code: string)
    requires NamedDirectories(lib) && Tracks(lib, w) && Ready(w, e) && Faithful(lib, w, e) && !Breaks(lib, w, e)
    requires HasCode(Step(w, e).shares, code) && (HasCode(w.shares, code) ==> CanFinish(lib, w, code))
    ensures Mendable(lib(code), DataOf(Step(w, e), code))
  {
    var r := lib(code);
    NoRowAppears(w, e, code);
    DataChange(w, e, code);
    UntouchedSteers(r);
    if Creates(w, e) && e.code == code {
      MendableNotLost(r, DataOf(w, code));
    } else if Handling(w.phase, code) && e.Write? {
      WriteKeeps(r, DataOf(w, code), w.phase.job.pos, e.d, e.pos);
    } else if Handling(w.phase, code) && e.Drain? {
      DrainKeeps(r, w.phase.job.pos, e.d);
    } else if e.DropDuplicate? && e.code == code {
      StepSteered(lib, w, e, code);
      MendableNotLost(r, DataOf(w, code).(rows := map[]));
    }
  }

  lemma HandMendable(lib: Library, w: World, e: Event, code: string)
    requires NamedDirectories(lib) && Tracks(lib, w) && Ready(w, e) && Faithful(lib, w, e) && !Breaks(lib, w, e)
    requires HasCode(Step(w, e).shares, code) && (HasCode(w.shares, code) ==> CanFinish(lib, w, code))
    requires Handling(PhaseAfter(w, e), code) && Live(PhaseAfter(w, e))
    ensures Mendable(lib(code), PhaseAfter(w, e).job.pos)
  {
    var r, pos := lib(code), PhaseAfter(w, e).job.pos;
    NoRowAppears(w, e, code);
    JobChange(w, e);
    StepTracksJob(lib, w, e);
    if !e.Begin? {
      HandledBefore(w, e, code);
      if e.Write? {
        WriteKeeps(r, DataOf(w, code), w.phase.job.pos, e.d, e.pos);
      } else if e.Drain? {
        DrainKeeps(r, w.phase.job.pos, e.d);
      } else if e.Purge? {
        StillExact(r, pos);
      } else if (Creates(w, e) || e.DropDuplicate?) && e.code == code {
        MendableNotLost(r, pos);
      }
    }
  }

  lemma StepCanFinish(lib: Library, w: World, e: Event, code: string)
    requires NamedDirectories(lib) && Tracks(lib, w) && Ready(w, e) && Faithful(lib, w, e) && !Breaks(lib, w, e)
    requires HasCode(Step(w, e).shares, code) && (HasCode(w.shares, code) ==> CanFinish(lib, w, code))
    ensures CanFinish(lib, Step(w, e), code)
  {
    DataMendable(lib, w, e, code);
    if Handling(PhaseAfter(w, e), code) && Live(PhaseAfter(w, e)) {
      HandMendable(lib, w, e, code);
    }
  }

  lemma StepIsWhole(lib: Library, w: World, e: Event, code: string)
    requires NamedDirectories(lib) && Tracks(lib, w) && Ready(w, e) && Faithful(lib, w, e) && Sound(lib, w)
    requires HasCompleted(Step(w, e), code)
    ensures IsWhole(lib, Step(w, e), code)
  {
    CompletedBefore(w, e, code);
    HasCodeIn(w.shares, code);
    if HasCompleted(w, code) {
      WholeStays(lib, w, e, code);
    } else {
      MarkedHasRow(w, e, code);
      MarkedWhole(lib, w, e, code);
    }
  }

  lemma MarkedHasRow(w: World, e: Event, code: string)
    requires Ready(w, e) && e.MarkCrawled? && HasCompleted(Step(w, e), code)
    ensures HasCode(w.shares, code)
  {
    var t :| t in Step(w, e).shares && t.code == code && t.status.Completed?;
    var s := RowOrigin(w, e, t);
    HasCodeIn(w.shares, code);
  }

  lemma MarkedWhole(lib: Library, w: World, e: Event, code: string)
    requires Tracks(lib, w) && Ready(w, e) && e.MarkCrawled? && Handling(w.phase, code) && CanFinish(lib, w, code)
    ensures IsWhole(lib, Step(w, e), code)
  {
    DataChange(w, e, code);
    StillExact(lib(code), w.phase.job.pos);
  }

  lemma WholeStays(lib: Library, w: World, e: Event, code: string)
    requires NamedDirectories(lib) && Tracks(lib, w) && Ready(w, e) && Faithful(lib, w, e)
    requires HasCompleted(w, code) && CanFinish(lib, w, code) && IsWhole(lib, w, code)
    requires !((e.Delete? || e.DropDuplicate?) && e.code == code)
    ensures IsWhole(lib, Step(w, e), code)
  {
    var r := lib(code);
    DataChange(w, e, code);
    if Handling(w.phase, code) && e.Write? {
      WriteKeeps(r, DataOf(w, code), w.phase.job.pos, e.d, e.pos);
    } else if Handling(w.phase, code) && e.Drain? {
      DrainKeeps(r, w.phase.job.pos, e.d);
    }
    if Handling(PhaseAfter(w, e), code) {
      JobChange(w, e);
    }
  }

  /** The named calls do break it. */
  lemma BreaksBreak(lib: Library, w: World, e: Event)
    requires NamedDirectories(lib) && Tracks(lib, w) && Ready(w, e) && Faithful(lib, w, e) && Breaks(lib, w, e)
    ensures !Sound(lib, Step(w, e))
  {
    StepTracks(lib, w, e);
    var code := if e.Purge? then w.phase.job.listed.code else e.code;
    var r := lib(code);
    DataChange(w, e, code);
    assert HasCode(Step(w, e).shares, code) by {
      if Creates(w, e) {
        assert Step(w, e).shares[|w.shares|].code == code;
      } else {
        RowStays(w, e, code);
      }
    }
    MendableNotLost(r, DataOf(Step(w, e), code));
    if Handling(w.phase, code) {
      assert Handling(PhaseAfter(w, e), code);
      JobChange(w, e);
      MendableNotLost(r, PhaseAfter(w, e).job.pos);
      if e.Purge? {
        StillExact(r, PhaseAfter(w, e).job.pos);
      }
    }
    assert !CanFinish(lib, Step(w, e), code);
  }

  /**
   Every call of every cycle, crawl and administrator keeps registered shares completable and
   COMPLETED ones complete, if and only if it is not one of those named by `Breaks`.
   */
  lemma StepSound(lib: Library, w: World, e: Event)
    requires NamedDirectories(lib) && Tracks(lib, w) && Sound(lib, w) && Ready(w, e) && Faithful(lib, w, e)
    ensures Tracks(lib, Step(w, e))
    ensures Sound(lib, Step(w, e)) <==> !Breaks(lib, w, e)
  {
    StepTracks(lib, w, e);
    if Breaks(lib, w, e) {
      BreaksBreak(lib, w, e);
    } else {
      forall code
        ensures HasCode(Step(w, e).shares, code) ==> CanFinish(lib, Step(w, e), code)
        ensures HasCompleted(Step(w, e), code) ==> IsWhole(lib, Step(w, e), code)
      {
        if HasCode(Step(w, e).shares, code) {
          StepCanFinish(lib, w, e, code);
        }
        if HasCompleted(Step(w, e), code) {
          StepIsWhole(lib, w, e, code);
        }
      }
    }
  }

  // ----- over whole runs -----

  /** An empty database, and a scheduler at rest. */
  const FOUNDED := World([], map[], 1, Resting)

  lemma FoundedSound(lib: Library)
    ensures Tracks(lib, FOUNDED) && Sound(lib, FOUNDED)
  {
    forall code ensures Steered(lib(code), DataOf(FOUNDED, code)) {
      UntouchedSteers(lib(code));
    }
  }

  lemma {:induction false} RunSound(lib: Library, es: seq<Event>, n: nat)
    requires n <= |es| && NamedDirectories(lib) && Path(FOUNDED, es)
    requires forall i :: 0 <= i < n ==>
               Faithful(lib, At(FOUNDED, es, i), es[i]) && !Breaks(lib, At(FOUNDED, es, i), es[i])
    ensures Tracks(lib, At(FOUNDED, es, n)) && Sound(lib, At(FOUNDED, es, n))
  {
    if n == 0 {
      FoundedSound(lib);
    } else {
      RunSound(lib, es, n - 1);
      AtNext(FOUNDED, es, n - 1);
      StepSound(lib, At(FOUNDED, es, n - 1), es[n - 1]);
    }
  }

  /**
   COMPLETED is sound: over every run of cycles, interruptions, registrations, reactivations and
   deletions, at any point, without one of the calls named by `Breaks`, a COMPLETED share holds
   exactly the files its snapshot lists.
   */
  lemma CompletedIsSound(lib: Library, es: seq<Event>, n: nat, s: Share, id: string)
    requires n <= |es| && NamedDirectories(lib) && Path(FOUNDED, es)
    requires forall i :: 0 <= i < n ==>
               Faithful(lib, At(FOUNDED, es, i), es[i]) && !Breaks(lib, At(FOUNDED, es, i), es[i])
    requires s in At(FOUNDED, es, n).shares && s.status.Completed?
    ensures DataOf(At(FOUNDED, es, n), s.code).rows == WholeRows(lib, s.code)
    ensures id in DataOf(At(FOUNDED, es, n), s.code).rows <==> CrawlTheorems.Listed(lib(s.code), id)
  {
    RunSound(lib, es, n);
    assert HasCompleted(At(FOUNDED, es, n), s.code);
    CrawlTheorems.RowsAreListed(lib(s.code), id);
  }

  // ----- a condition on single calls that suffices -----

  /**
   Nobody deletes a share's files while its crawl is running, nor drops files by size, nor registers
   a share between its crawl's return and the recording of the outcome.
   */
  predicate Gentle(w: World, e: Event) {
    && !(e.Delete? && w.phase.Crawling? && Handling(w.phase, e.code) && DataOf(w, e.code).rows != map[])
    && !(e.DropDuplicate? && DataOf(w, e.code).rows != map[])
    && !(Creates(w, e) && Handling(w.phase, e.code) && !w.phase.Crawling?)
  }

  /** Nothing is lost anywhere, and a share about to be purged has no row. */
  ghost predicate NothingLost(lib: Library, w: World) {
    && (forall code :: Mendable(lib(code), DataOf(w, code)))
    && (w.phase.Crawling? ==> Mendable(lib(w.phase.job.listed.code), w.phase.job.pos))
    && (w.phase.Purging? ==> !HasCode(w.shares, w.phase.job.listed.code))
  }

  lemma GentleData(lib: Library, w: World, e: Event, code: string)
    requires NamedDirectories(lib) && Tracks(lib, w) && NothingLost(lib, w)
    requires Ready(w, e) && Faithful(lib, w, e) && Gentle(w, e)
    ensures Mendable(lib(code), DataOf(Step(w, e), code))
  {
    var r := lib(code);
    DataChange(w, e, code);
    UntouchedSteers(r);
    if Handling(w.phase, code) && e.Write? {
      WriteKeeps(r, DataOf(w, code), w.phase.job.pos, e.d, e.pos);
    } else if Handling(w.phase, code) && e.Drain? {
      DrainKeeps(r, w.phase.job.pos, e.d);
    }
  }

  lemma GentleHand(lib: Library, w: World, e: Event)
    requires NamedDirectories(lib) && Tracks(lib, w) && NothingLost(lib, w)
    requires Ready(w, e) && Faithful(lib, w, e) && Gentle(w, e)
    ensures var p := PhaseAfter(w, e); p.Crawling? ==> Mendable(lib(p.job.listed.code), p.job.pos)
  {
    var p := PhaseAfter(w, e);
    if p.Crawling? {
      var code := p.job.listed.code;
      JobChange(w, e);
      if e.Write? {
        WriteKeeps(lib(code), DataOf(w, code), w.phase.job.pos, e.d, e.pos);
      } else if e.Drain? {
        DrainKeeps(lib(code), w.phase.job.pos, e.d);
      } else if !e.Begin? {
        assert w.phase.job.pos.rows == DataOf(w, code).rows;
      }
    }
  }

  lemma GentlePurging(w: World, e: Event)
    requires Ready(w, e) && Gentle(w, e) && (w.phase.Purging? ==> !HasCode(w.shares, w.phase.job.listed.code))
    ensures var p := PhaseAfter(w, e); p.Purging? ==> !HasCode(Step(w, e).shares, p.job.listed.code)
  {
    var p := PhaseAfter(w, e);
    if p.Purging? && HasCode(Step(w, e).shares, p.job.listed.code) {
      NoRowAppears(w, e, p.job.listed.code);
    }
  }

  lemma GentleCreates(lib: Library, w: World, e: Event)
    requires Tracks(lib, w) && NothingLost(lib, w) && Gentle(w, e) && Creates(w, e)
    ensures !Lossy(lib, w.phase, e.code, DataOf(w, e.code), if InFlight(w.phase) then w.phase.job.pos else UNTOUCHED)
  {
    MendableNotLost(lib(e.code), DataOf(w, e.code));
    if Handling(w.phase, e.code) {
      HandSteered(lib, w);
      MendableNotLost(lib(e.code), w.phase.job.pos);
    }
  }

  lemma GentleDrops(lib: Library, w: World, e: Event)
    requires Tracks(lib, w) && Sound(lib, w) && Gentle(w, e) && e.DropDuplicate?
    ensures !Breaks(lib, w, e)
  {
    assert DataOf(w, e.code).(rows := map[]) == DataOf(w, e.code);
    MendableNotLost(lib(e.code), DataOf(w, e.code));
    if Handling(w.phase, e.code) {
      HandSteered(lib, w);
      assert w.phase.job.pos.(rows := map[]) == w.phase.job.pos;
      MendableNotLost(lib(e.code), w.phase.job.pos);
    }
  }

  lemma GentleNeverBreaks(lib: Library, w: World, e: Event)
    requires Tracks(lib, w) && Sound(lib, w) && NothingLost(lib, w) && Gentle(w, e)
    ensures !Breaks(lib, w, e)
  {
    if e.DropDuplicate? {
      GentleDrops(lib, w, e);
    } else if Creates(w, e) {
      GentleCreates(lib, w, e);
    }
  }

  lemma {:induction false} GentleRun(lib: Library, es: seq<Event>, n: nat)
    requires n <= |es| && NamedDirectories(lib) && Path(FOUNDED, es)
    requires forall i :: 0 <= i < n ==> Faithful(lib, At(FOUNDED, es, i), es[i]) && Gentle(At(FOUNDED, es, i), es[i])
    ensures var w := At(FOUNDED, es, n); Tracks(lib, w) && Sound(lib, w) && NothingLost(lib, w)
  {
    if n == 0 {
      FoundedSound(lib);
      forall code ensures Mendable(lib(code), DataOf(FOUNDED, code)) {
        UntouchedSteers(lib(code));
      }
    } else {
      var w, e := At(FOUNDED, es, n - 1), es[n - 1];
      GentleRun(lib, es, n - 1);
      AtNext(FOUNDED, es, n - 1);
      GentleStep(lib, w, e);
    }
  }

  lemma GentleStep(lib: Library, w: World, e: Event)
    requires NamedDirectories(lib) && Tracks(lib, w) && Sound(lib, w) && NothingLost(lib, w)
    requires Ready(w, e) && Faithful(lib, w, e) && Gentle(w, e)
    ensures Tracks(lib, Step(w, e)) && Sound(lib, Step(w, e)) && NothingLost(lib, Step(w, e))
  {
    GentleNeverBreaks(lib, w, e);
    StepSound(lib, w, e);
    forall code ensures Mendable(lib(code), DataOf(Step(w, e), code)) {
      GentleData(lib, w, e, code);
    }
    GentleHand(lib, w, e);
    GentlePurging(w, e);
  }

  /** In every run of gentle calls a COMPLETED share holds its snapshot, and no share has lost anything. */
  lemma GentleRunsComplete(lib: Library, es: seq<Event>, n: nat, code: string)
    requires n <= |es| && NamedDirectories(lib) && Path(FOUNDED, es)
    requires forall i :: 0 <= i < n ==> Faithful(lib, At(FOUNDED, es, i), es[i]) && Gentle(At(FOUNDED, es, i), es[i])
    ensures Mendable(lib(code), DataOf(At(FOUNDED, es, n), code))
    ensures HasCompleted(At(FOUNDED, es, n), code) ==> DataOf(At(FOUNDED, es, n), code).rows == WholeRows(lib, code)
  {
    GentleRun(lib, es, n);
  }

  lemma HandSteered(lib: Library, w: World)
    requires Tracks(lib, w) && InFlight(w.phase)
    ensures Steered(lib(w.phase.job.listed.code), w.phase.job.pos)
  {
  }
}
