/** What every run of the fleet does to stored files whose share row is gone. */
module FleetOrphans {
  import opened Checkpoints
  import opened Shares
  import opened Fleet

  ghost predicate Orphan(w: World, code: string) {
    DataOf(w, code).rows != map[] && !HasCode(w.shares, code)
  }

  /**
   Stored files without a share row belong to the share in flight, whose crawl stored some and is
   still to be purged.
   */
  ghost predicate Tidy(w: World) {
    forall code :: Orphan(w, code) ==> UnpurgedWrites(w.phase, code)
  }

  predicate UnpurgedWrites(p: Phase, code: string) {
    match p
    case Crawling(job) => job.listed.code == code && job.wrote
    case Checking(job, _) => job.listed.code == code
    case Purging(job, _) => job.listed.code == code
    case _ => false
  }

  /** The crawl of a share that lost its row ends before it is purged. */
  ghost predicate Abandons(w: World, e: Event) {
    e.Abort? && InFlight(w.phase) && Orphan(w, w.phase.job.listed.code)
  }

  lemma RowStays(w: World, e: Event, code: string)
    requires HasCode(w.shares, code) && !(e.Delete? && e.code == code)
    ensures HasCode(Step(w, e).shares, code)
  {
    var i :| 0 <= i < |w.shares| && w.shares[i].code == code;
    if Ready(w, e) {
      if e.Delete? {
        WithoutExact(w.shares, e.code, w.shares[i]);
        var j :| 0 <= j < |Step(w, e).shares| && Step(w, e).shares[j] == w.shares[i];
        assert Step(w, e).shares[j].code == code;
      } else if Creates(w, e) {
        assert Step(w, e).shares[i].code == code;
      } else {
        assert Step(w, e).shares[i] == Rewritten(w.phase, e, w.shares[i]);
      }
    }
  }

  /** A row of a code that had none was created. */
  lemma NoRowAppears(w: World, e: Event, code: string)
    requires Ready(w, e) && HasCode(Step(w, e).shares, code)
    ensures (Creates(w, e) && e.code == code) || (HasCode(w.shares, code) && !(e.Delete? && e.code == code))
  {
    var i :| 0 <= i < |Step(w, e).shares| && Step(w, e).shares[i].code == code;
    var s := RowOrigin(w, e, Step(w, e).shares[i]);
    HasCodeIn(w.shares, code);
  }

  /** Every call keeps the fleet tidy, but for one that abandons an orphan. */
  lemma StepTidy(w: World, e: Event)
    requires Tidy(w)
    ensures Tidy(Step(w, e)) <==> !Abandons(w, e)
  {
    forall code | Orphan(Step(w, e), code) && !Abandons(w, e)
      ensures UnpurgedWrites(Step(w, e).phase, code)
    {
      OrphanStays(w, e, code);
    }
    if Abandons(w, e) {
      assert Orphan(Step(w, e), w.phase.job.listed.code);
    }
  }

  /** Stored files come only from the crawl in flight. */
  lemma RowsAfter(w: World, e: Event, code: string)
    ensures || DataOf(Step(w, e), code).rows == DataOf(w, code).rows
            || DataOf(Step(w, e), code).rows == map[]
            || ((e.Write? || e.Drain?) && w.phase.Crawling? && Handling(w.phase, code)
                && UnpurgedWrites(Step(w, e).phase, code))
    ensures e.Delete? && e.code == code ==> DataOf(Step(w, e), code) == UNTOUCHED
    ensures e.Purge? && w.phase.Purging? && Handling(w.phase, code) ==> DataOf(Step(w, e), code) == UNTOUCHED
  {
  }

  lemma UnpurgedStays(w: World, e: Event, code: string)
    requires UnpurgedWrites(w.phase, code) && !HasCode(w.shares, code) && !e.Abort?
    ensures UnpurgedWrites(Step(w, e).phase, code) || (e.Purge? && w.phase.Purging? && Handling(w.phase, code))
  {
  }

  lemma OrphanStays(w: World, e: Event, code: string)
    requires Tidy(w) && Orphan(Step(w, e), code) && !Abandons(w, e)
    ensures UnpurgedWrites(Step(w, e).phase, code)
  {
    RowsAfter(w, e, code);
    if Orphan(w, code) {
      UnpurgedStays(w, e, code);
    } else if HasCode(w.shares, code) && !(e.Delete? && e.code == code) {
      RowStays(w, e, code);
    }
  }

  /**
   No orphans survive: in every run in which no crawl of a deleted share is abandoned before it is
   purged, the only share with files and no row is the one in flight, until it is purged.
   */
  lemma {:induction false} NoOrphansSurvive(w: World, es: seq<Event>, n: nat)
    requires n <= |es| && Tidy(w)
    requires forall i :: 0 <= i < n ==> !Abandons(At(w, es, i), es[i])
    ensures Tidy(At(w, es, n))
    ensures var p := At(w, es, n).phase;
            p.Resting? || p.Between? || p.Recording? || p.Updating? ==> forall code :: !Orphan(At(w, es, n), code)
  {
    if n > 0 {
      NoOrphansSurvive(w, es, n - 1);
      AtNext(w, es, n - 1);
      StepTidy(At(w, es, n - 1), es[n - 1]);
    }
  }

  // ----- how a deleted share comes back -----

  predicate Describes(e: Event, code: string) {
    e.Describe? && e.code == code
  }

  /**
   A deleted share that nobody registers has a row again exactly when title and size were stored
   for it since, as a crawl of it still running does on its first page.
   */
  lemma {:induction false} ReturnsWhenDescribed(w: World, es: seq<Event>, i: nat, j: nat, code: string)
    requires i < j <= |es| && es[i] == Delete(code)
    requires forall m :: i < m < j ==> !((es[m].Upsert? || es[m].Delete?) && es[m].code == code)
    ensures HasCode(At(w, es, j).shares, code) <==> exists m :: i < m < j && Describes(es[m], code)
  {
    AtNext(w, es, j - 1);
    if j == i + 1 {
      NoneAfterDelete(At(w, es, i), code);
    } else {
      ReturnsWhenDescribed(w, es, i, j - 1, code);
      RowAfter(At(w, es, j - 1), es[j - 1], code);
    }
  }

  lemma RowAfter(w: World, e: Event, code: string)
    requires !((e.Upsert? || e.Delete?) && e.code == code)
    ensures HasCode(Step(w, e).shares, code) <==> HasCode(w.shares, code) || Describes(e, code)
  {
    if Describes(e, code) {
      DescribeCreates(w, e);
    } else if HasCode(w.shares, code) {
      RowStays(w, e, code);
    } else if Ready(w, e) && HasCode(Step(w, e).shares, code) {
      NoRowAppears(w, e, code);
    }
  }

  lemma NoneAfterDelete(w: World, code: string)
    ensures !HasCode(Step(w, Delete(code)).shares, code)
  {
    if HasCode(Step(w, Delete(code)).shares, code) {
      NoRowAppears(w, Delete(code), code);
    }
  }

  lemma DescribeCreates(w: World, e: Event)
    requires e.Describe?
    ensures HasCode(Step(w, e).shares, e.code)
  {
    if Creates(w, e) {
      assert Step(w, e).shares[|w.shares|].code == e.code;
    } else {
      var i :| 0 <= i < |w.shares| && w.shares[i].code == e.code && w.shares[i].receiveCode == e.receive;
      RowStays(w, e, e.code);
    }
  }
}
