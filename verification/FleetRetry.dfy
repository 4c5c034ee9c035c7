/** When a share is crawled again, over every run of the fleet. */
module FleetRetry {
  import opened Basics
  import opened Shares
  import opened Backoff
  import opened Lifecycle
  import opened Crawler
  import opened CrawlAnswers
  import opened Fleet
  import opened FleetLife

  // ----- parked shares -----

  predicate Parked(s: Share) {
    s.status.Completed? || s.status.Dead? || s.status.DuplicateShare?
  }

  predicate IsListed(p: Phase, code: string) {
    exists l :: l in Listed(p) && l.code == code
  }

  /** Every row of the code is parked, and none is waiting from an earlier listing. */
  ghost predicate AllParked(w: World, code: string) {
    && (forall s :: s in w.shares && s.code == code ==> Parked(s))
    && !IsListed(w.phase, code)
  }

  /** A row of the code becomes ACTIVE. */
  predicate Wakes(w: World, e: Event, code: string) {
    match e
    case Upsert(c, _) => c == code
    case Reactivate(c) => c == code
    case Describe(c, _, _, _) => c == code && Creates(w, e)
    case _ => false
  }

  lemma StepParked(w: World, e: Event, code: string)
    requires AllParked(w, code) && !Wakes(w, e, code)
    ensures AllParked(Step(w, e), code)
    ensures e.List? ==> forall l :: l in Listing(w.shares, e.now) ==> l.code != code
  {
    if e.List? {
      forall l | l in Listing(w.shares, e.now) ensures l.code != code {
        ListedIffDue(w.shares, e.now, l);
      }
    }
    if Ready(w, e) {
      if !e.List? {
        ListedAfter(w, e);
      }
      forall t | t in Step(w, e).shares && t.code == code
        ensures Parked(t)
      {
        var s := RowOrigin(w, e, t);
        NotHandled(w, code);
        assert s in w.shares ==> Parked(s);
      }
    }
  }

  lemma NotHandled(w: World, code: string)
    requires !IsListed(w.phase, code)
    ensures !Handling(w.phase, code)
  {
    if InFlight(w.phase) {
      assert w.phase.job.listed in Listed(w.phase);
    }
  }

  /** A COMPLETED, DEAD or DUPLICATE share is not listed until it is registered again or reactivated. */
  lemma {:induction false} ParkedNeverListed(w: World, es: seq<Event>, n: nat, code: string)
    requires n <= |es| && AllParked(w, code)
    requires forall i :: 0 <= i < n ==> !Wakes(At(w, es, i), es[i], code)
    ensures AllParked(At(w, es, n), code)
    ensures n < |es| && es[n].List? ==> forall l :: l in Listing(At(w, es, n).shares, es[n].now) ==> l.code != code
  {
    if n > 0 {
      ParkedNeverListed(w, es, n - 1, code);
      AtNext(w, es, n - 1);
      StepParked(At(w, es, n - 1), es[n - 1], code);
    }
    if n < |es| && es[n].List? {
      forall l | l in Listing(At(w, es, n).shares, es[n].now) ensures l.code != code {
        ListedIffDue(At(w, es, n).shares, es[n].now, l);
      }
    }
  }

  // ----- resets -----

  /** The share starts over, ends well, or goes. */
  predicate Resets(w: World, e: Event, code: string) {
    match e
    case Delete(c) => c == code
    case MarkCrawled(_) => Handling(w.phase, code)
    case MarkDuplicate => Handling(w.phase, code)
    case _ => Zeroes(w, e, code)
  }

  /** The outcome of the code's crawl is written as a failure. */
  predicate FailureWritten(w: World, e: Event, code: string) {
    e.WriteFailure? && w.phase.Updating? && Handling(w.phase, code)
  }

  predicate ShelvedNow(w: World, e: Event, code: string) {
    e.Shelve? && Ready(w, e) && Handling(w.phase, code)
  }

  // ----- the empty-data bound -----

  /** How many crawls of the code ended in the empty-data error since it was last reset or shelved. */
  function Empties(w: World, es: seq<Event>, code: string): nat {
    if es == [] then 0
    else
      var n := |es| - 1;
      EmptiesNext(RunTo(w, es[..n]), es[n], code, Empties(w, es[..n], code))
  }

  function EmptiesNext(w: World, e: Event, code: string, k: nat): nat {
    if !Ready(w, e) then k
    else if Resets(w, e, code) || ShelvedNow(w, e, code) then 0
    else if FailureWritten(w, e, code) && IsEmptyData(w.phase.outcome) then k + 1
    else k
  }

  /** `k` empty-data errors show in every count kept of the code's failures. */
  ghost predicate Counts(w: World, code: string, k: nat) {
    match w
    case World(shares, _, _, phase) =>
      && k < GIVE_UP_FAILURES
      && (forall s :: s in shares && s.code == code ==> k <= s.failureCount)
      && (forall l :: l in Listed(phase) && l.code == code ==> k <= l.failureCount)
      && (phase.Updating? && Handling(phase, code) ==>
            k <= phase.failures && (IsEmptyData(phase.outcome) ==>
                phase.job.listed.failureCount + 1 < GIVE_UP_FAILURES))
  }

  lemma {:induction false} FailuresOf(shares: seq<Share>, code: string) returns (s: Share)
    requires HasCode(shares, code)
    ensures s in shares && s.code == code && s.failureCount == Failures(shares, code)
  {
    var last := |shares| - 1;
    if shares[last].code == code {
      s := shares[last];
    } else {
      var i :| 0 <= i < |shares| && shares[i].code == code;
      assert shares[..last][i].code == code;
      s := FailuresOf(shares[..last], code);
    }
  }

  lemma CountsRow(w: World, e: Event, code: string, k: nat, t: Share)
    requires Counts(w, code, k) && Ready(w, e) && t in Step(w, e).shares && t.code == code
    ensures EmptiesNext(w, e, code, k) <= t.failureCount
  {
    var s := RowOrigin(w, e, t);
    if Creates(w, e) && s in w.shares {
      CreatesRewritesNothing(w, e, s);
    } else if Creates(w, e) {
      assert Zeroes(w, e, code);
    }
  }

  lemma EmptiesStep(w: World, e: Event, code: string, k: nat)
    ensures EmptiesNext(w, e, code, k) <= k || FailureWritten(w, e, code)
  {
  }

  lemma CountsListed(w: World, e: Event, code: string, k: nat, l: Share)
    requires Counts(w, code, k) && Distinct(w) && Ready(w, e) && l in Listed(PhaseAfter(w, e)) && l.code == code
    ensures EmptiesNext(w, e, code, k) <= l.failureCount
  {
    EmptiesStep(w, e, code, k);
    if e.List? {
      ListedIffDue(w.shares, e.now, l);
    } else {
      ListedAfter(w, e);
      assert Records(e) ==> !Handling(w.phase, code) by {
        if Records(e) {
          NotAgain(w, l);
        }
      }
      assert l in Listed(w.phase);
    }
  }

  lemma CountsPhase(w: World, e: Event, code: string, k: nat)
    requires Counts(w, code, k) && Ready(w, e)
    ensures EmptiesNext(w, e, code, k) < GIVE_UP_FAILURES
    ensures var p := PhaseAfter(w, e);
            p.Updating? && Handling(p, code) ==>
              EmptiesNext(w, e, code, k) <= p.failures
                  && (IsEmptyData(p.outcome) ==> p.job.listed.failureCount + 1 < GIVE_UP_FAILURES)
  {
    if InFlight(w.phase) {
      assert w.phase.job.listed in Listed(w.phase);
    }
    if e.ReadFailures? && HasCode(w.shares, code) {
      var s := FailuresOf(w.shares, code);
    }
  }

  lemma StepCounts(w: World, e: Event, code: string, k: nat)
    requires Counts(w, code, k) && Distinct(w)
    ensures Counts(Step(w, e), code, EmptiesNext(w, e, code, k))
  {
    if Ready(w, e) {
      forall t | t in Step(w, e).shares && t.code == code ensures EmptiesNext(w, e, code, k) <= t.failureCount {
        CountsRow(w, e, code, k, t);
      }
      forall l | l in Listed(PhaseAfter(w, e)) && l.code == code ensures EmptiesNext(w, e, code, k) <= l.failureCount {
        CountsListed(w, e, code, k, l);
      }
      CountsPhase(w, e, code, k);
    }
  }

  ghost predicate OneReceiveRun(w: World, es: seq<Event>) {
    forall i :: 0 <= i < |es| ==> OneReceive(At(w, es, i), es[i])
  }

  lemma {:induction false} RunCounts(w: World, es: seq<Event>, n: nat, code: string)
    requires n <= |es| && Quiet(w) && OneReceiveRun(w, es)
    ensures Distinct(At(w, es, n))
    ensures Counts(At(w, es, n), code, Empties(w, es[..n], code))
  {
    if n > 0 {
      RunCounts(w, es, n - 1, code);
      AtNext(w, es, n - 1);
      var here := At(w, es, n - 1);
      StepDistinct(here, es[n - 1]);
      StepCounts(here, es[n - 1], code, Empties(w, es[..n - 1], code));
      assert es[..n][..n - 1] == es[..n - 1];
    }
  }

  /**
   Between resets no share fails with empty data a fourth time without being shelved: at most
   three such failures are ever recorded, and after three the next one can only be shelved.
   */
  lemma EmptyDataBound(w: World, es: seq<Event>, n: nat, code: string)
    requires n <= |es| && Quiet(w) && OneReceiveRun(w, es)
    ensures Empties(w, es[..n], code) <= 3
    ensures var p := At(w, es, n).phase;
            Empties(w, es[..n], code) == 3 && p.Recording? && Handling(p, code) && IsEmptyData(p.outcome) ==>
              Ready(At(w, es, n), Shelve(0)) && !Ready(At(w, es, n), ReadFailures)
  {
    RunCounts(w, es, n, code);
    var p := At(w, es, n).phase;
    if p.Recording? {
      assert p.job.listed in Listed(p);
    }
  }

  // ----- the recorded retry time -----

  datatype Hold = Free | Until(time: int)

  /** The retry time last recorded for a failure or a shelving of the code, unless it was reset or settled since. */
  function Held(w: World, es: seq<Event>, code: string): Hold {
    if es == [] then Free
    else
      var n := |es| - 1;
      HeldNext(RunTo(w, es[..n]), es[n], code, Held(w, es[..n], code))
  }

  function HeldNext(w: World, e: Event, code: string, hold: Hold): Hold {
    if !Ready(w, e) then hold
    else if Resets(w, e, code) || (e.MarkDead? && Handling(w.phase, code)) then Free
    else if FailureWritten(w, e, code) then Until(e.at + Delay(w.phase.failures + 1))
    else if ShelvedNow(w, e, code) then Until(e.at + SHELF_SECONDS)
    else hold
  }

  ghost predicate Holds(w: World, code: string, hold: Hold) {
    match hold
    case Free => true
    case Until(u) => forall s :: s in w.shares && s.code == code ==> s.retryAfter == u
  }

  lemma RewrittenRetry(w: World, e: Event, s: Share, hold: Hold)
    requires Ready(w, e) && !Creates(w, e) && !e.Delete? && (hold.Until? ==> s.retryAfter == hold.time)
    ensures var next := HeldNext(w, e, s.code, hold); next.Until? ==> Rewritten(w.phase, e, s).retryAfter == next.time
  {
  }

  lemma StepHolds(w: World, e: Event, code: string, hold: Hold)
    requires Holds(w, code, hold)
    ensures Holds(Step(w, e), code, HeldNext(w, e, code, hold))
  {
    forall t | t in Step(w, e).shares && t.code == code && HeldNext(w, e, code, hold).Until?
      ensures t.retryAfter == HeldNext(w, e, code, hold).time
    {
      var s := RowOrigin(w, e, t);
      if Ready(w, e) {
        if Creates(w, e) && s in w.shares {
          CreatesRewritesNothing(w, e, s);
        } else if !Creates(w, e) && !e.Delete? {
          RewrittenRetry(w, e, s, hold);
        }
      }
    }
  }

  /** A failed or shelved share is not listed before its recorded retry time, unless it is reset first. */
  lemma {:induction false} NotListedEarly(w: World, es: seq<Event>, n: nat, code: string)
    requires n <= |es|
    ensures Holds(At(w, es, n), code, Held(w, es[..n], code))
    ensures n < |es| && es[n].List? && Held(w, es[..n], code).Until? ==>
              forall l :: l in Listing(At(w, es, n).shares, es[n].now) && l.code == code ==>
                  Held(w, es[..n], code).time <= es[n].now
  {
    if n > 0 {
      NotListedEarly(w, es, n - 1, code);
      AtNext(w, es, n - 1);
      StepHolds(At(w, es, n - 1), es[n - 1], code, Held(w, es[..n - 1], code));
      assert es[..n][..n - 1] == es[..n - 1];
    }
    if n < |es| && es[n].List? {
      forall l | l in Listing(At(w, es, n).shares, es[n].now) && l.code == code && Held(w, es[..n], code).Until?
        ensures Held(w, es[..n], code).time <= es[n].now
      {
        ListedIffDue(At(w, es, n).shares, es[n].now, l);
      }
    }
  }
}
