/**
 What becomes of a crawl whose stored rows were deleted. Rows never steer the run, so it goes on
 as before, and ends with what was stored plus what the pages still to come list.
 */
module CrawlLoss {
  import opened Basics
  import opened Snapshots
  import opened CrawlRun
  import opened CrawlTheorems
  import opened Checkpoints
  import opened CrawlHistory

  function Emptied(st: State): State {
    st.(rows := map[])
  }

  /** A state with more rows stored to begin with. */
  function Onto(rows: Rows, st: State): State {
    st.(rows := rows + st.rows)
  }

  /** The rows of the page under the cursor. */
  function CursorRows(r: Remote, st: State): Rows {
    if st.active.Idle? then map[]
    else
      var At(task, offset) := st.active;
      PageRows(r, r.Nodes(task.cid, offset), task.cid, task.depth + 1)
  }

  lemma RowsAssociate(a: Rows, b: Rows, c: Rows)
    ensures (a + b) + c == a + (b + c)
  {
  }

  lemma Regroup(all: Rows, a: Rows, b: Rows, page: Rows, more: Rows, rest: Rows)
    requires all == a + b && b == page + rest && more == a + page
    ensures all == more + rest
  {
    RowsAssociate(a, page, rest);
  }

  lemma NextRows(r: Remote, st: State)
    ensures Next(r, st).rows == st.rows + CursorRows(r, st)
  {
    assert st.rows + map[] == st.rows;
  }

  lemma NextOnto(r: Remote, rows: Rows, st: State)
    ensures Next(r, Onto(rows, st)) == Onto(rows, Next(r, st))
    ensures FetchOf(Onto(rows, st)) == FetchOf(st)
  {
    RowsAssociate(rows, st.rows, CursorRows(r, st));
  }

  /**
   The rows stored at the start change neither where a run goes nor what it fetches, and are what
   its rows are added to.
   */
  lemma {:induction false} RowsNeverSteer(r: Remote, rows: Rows, st: State, i: nat)
    ensures After(r, Onto(rows, st), i) == Onto(rows, After(r, st, i))
    ensures Log(r, Onto(rows, st), i) == Log(r, st, i)
  {
    if i > 0 {
      RowsNeverSteer(r, rows, st, i - 1);
      var a, b := After(r, Onto(rows, st), i - 1), After(r, st, i - 1);
      assert After(r, Onto(rows, st), i) == Next(r, a)
          && Log(r, Onto(rows, st), i) == Log(r, Onto(rows, st), i - 1) + FetchOf(a) by {
        AfterNext(r, Onto(rows, st), i - 1);
      }
      assert After(r, st, i) == Next(r, b) && Log(r, st, i) == Log(r, st, i - 1) + FetchOf(b) by {
        AfterNext(r, st, i - 1);
      }
      assert Next(r, a) == Onto(rows, Next(r, b)) && FetchOf(a) == FetchOf(b) by {
        NextOnto(r, rows, b);
      }
    }
  }

  /** The state of the uninterrupted run at its step `n`, as if nothing had been stored so far. */
  function BareAt(r: Remote, n: nat): State {
    Emptied(After(r, Start(), n))
  }

  /** The rows of the pages from step `n` of the run on. */
  ghost function RowsToCome(r: Remote, n: nat): Rows {
    After(r, BareAt(r, n), RunLength(r)).rows
  }

  lemma BareRun(r: Remote, n: nat, i: nat)
    ensures After(r, Start(), n + i) == Onto(After(r, Start(), n).rows, After(r, BareAt(r, n), i))
  {
    var here := After(r, Start(), n);
    assert Onto(here.rows, BareAt(r, n)) == here by { assert here.rows + map[] == here.rows; }
    RowsNeverSteer(r, here.rows, BareAt(r, n), i);
    AfterAfter(r, Start(), n, i);
  }

  /** Whenever a run from there is done, it has stored the rows to come. */
  lemma RowsWhenDone(r: Remote, n: nat, i: nat)
    requires Done(After(r, BareAt(r, n), i))
    ensures After(r, BareAt(r, n), i).rows == RowsToCome(r, n)
  {
    var len := RunLength(r);
    BareRun(r, n, len);
    DoneStays(r, Start(), len, n + len);
    assert Done(After(r, BareAt(r, n), len));
    DoneUnique(r, BareAt(r, n), i, len);
  }

  lemma BareDone(r: Remote, n: nat) returns (i: nat)
    ensures Done(After(r, BareAt(r, n), i))
  {
    i := RunLength(r);
    BareRun(r, n, i);
    DoneStays(r, Start(), i, n + i);
  }

  lemma BareNext(r: Remote, n: nat)
    ensures Next(r, BareAt(r, n)) == Onto(CursorRows(r, After(r, Start(), n)), BareAt(r, n + 1))
  {
    var here := After(r, Start(), n);
    var page := CursorRows(r, here);
    AfterNext(r, Start(), n);
    NextRows(r, BareAt(r, n));
    assert page + map[] == page && map[] + page == page;
  }

  /** The rows to come are those of the next page, if the next step fetches one, and then the rest. */
  lemma RowsToComeNext(r: Remote, n: nat)
    ensures RowsToCome(r, n) == CursorRows(r, After(r, Start(), n)) + RowsToCome(r, n + 1)
  {
    var page := CursorRows(r, After(r, Start(), n));
    var i := BareDone(r, n + 1);
    assert After(r, BareAt(r, n), i + 1) == Onto(page, After(r, BareAt(r, n + 1), i)) by {
      BareNext(r, n);
      AfterFirst(r, BareAt(r, n), i);
      RowsNeverSteer(r, page, BareAt(r, n + 1), i);
    }
    RowsWhenDone(r, n, i + 1);
    RowsWhenDone(r, n + 1, i);
  }

  lemma BareRows(r: Remote, n: nat, i: nat)
    ensures After(r, BareAt(r, n), i + 1).rows
            == After(r, BareAt(r, n), i).rows + CursorRows(r, After(r, Start(), n + i))
  {
    var before := After(r, BareAt(r, n), i);
    AfterNext(r, BareAt(r, n), i);
    NextRows(r, before);
    assert CursorRows(r, before) == CursorRows(r, After(r, Start(), n + i)) by {
      BareRun(r, n, i);
    }
  }

  /** The rows to come at step `n` are those of its next `i` steps and those to come after them. */
  ghost predicate Splits(r: Remote, n: nat, i: nat) {
    match After(r, BareAt(r, n), i)
    case State(_, _, _, stored) => RowsToCome(r, n) == stored + RowsToCome(r, n + i)
  }

  lemma SplitsNext(r: Remote, n: nat, i: nat)
    requires Splits(r, n, i)
    ensures Splits(r, n, i + 1)
  {
    var m := n + i;
    var page, rest := CursorRows(r, After(r, Start(), m)), RowsToCome(r, m + 1);
    assert RowsToCome(r, m) == page + rest by { RowsToComeNext(r, m); }
    var stored, more := After(r, BareAt(r, n), i).rows, After(r, BareAt(r, n), i + 1).rows;
    assert more == stored + page by { BareRows(r, n, i); }
    Regroup(RowsToCome(r, n), stored, RowsToCome(r, m), page, more, rest);
    assert n + (i + 1) == m + 1;
  }

  lemma RowsToComeSplit(r: Remote, n: nat, i: nat)
    ensures Splits(r, n, i)
  {
    NothingYet(r, n);
    for j := 0 to i
      invariant Splits(r, n, j)
    {
      SplitsNext(r, n, j);
    }
  }

  lemma NothingYet(r: Remote, n: nat)
    ensures Splits(r, n, 0)
  {
    assert map[] + RowsToCome(r, n) == RowsToCome(r, n);
  }

  /** What the run has stored and what is still to come make up what it ends with. */
  lemma StoredPlusToCome(r: Remote, n: nat)
    ensures After(r, Start(), n).rows + RowsToCome(r, n) == End(r).rows
  {
    var i := BareDone(r, n);
    BareRun(r, n, i);
    RowsWhenDone(r, n, i);
    DoneUnique(r, Start(), n + i, RunLength(r));
  }

  // ----- resuming with rows missing -----

  /** A call resumed from `d` does what one resumed from unharmed data does, with the rows of `d` underneath. */
  lemma ResumedLoss(r: Remote, d: Durable, n: nat, i: nat)
    requires SteersAt(r, d, n) && !Done(After(r, Start(), n))
    ensures After(r, Resume(d), i) == Onto(d.rows, After(r, BareAt(r, n), i))
    ensures var st, here := After(r, Resume(d), i), After(r, Start(), n + i); st == here.(rows := st.rows)
  {
    assert Onto(d.rows, BareAt(r, n)) == Resume(d) by { assert d.rows + map[] == d.rows; }
    RowsNeverSteer(r, d.rows, BareAt(r, n), i);
    BareRun(r, n, i);
  }

  /** A call resumed at the end of the run stores nothing, whatever is there. */
  lemma ResumedEndLoss(r: Remote, d: Durable, n: nat, i: nat)
    requires SteersAt(r, d, n) && Done(After(r, Start(), n))
    ensures var st := After(r, Resume(d), i); st.active.Idle? && st.rows == d.rows && st.visited == End(r).visited
    ensures Log(r, Resume(d), i) == []
    ensures RowsToCome(r, n) == map[]
  {
    DoneVisitsRoot(r, n);
    DoneUnique(r, Start(), n, RunLength(r));
    AfterNext(r, Resume(d), 0);
    if i > 0 {
      DoneStays(r, Resume(d), 1, i);
    }
    RowsWhenDone(r, n, 0);
  }

  /** Where the run ends, and with which checkpoint, does not depend on rows lost on the way. */
  ghost function Ending(r: Remote, rows: Rows): Durable {
    Finished(End(r)).(rows := rows)
  }

  /**
   The exact loss: a crawl resumed from any data at step `n` of the run that returns without error
   ends with the rows it found and those of the pages from step `n` on.
   */
  lemma LossExact(r: Remote, d: Durable, d': Durable, log: seq<Fetch>, n: nat)
    requires SteersAt(r, d, n) && Completed(r, d, d', log)
    ensures d' == Ending(r, d.rows + RowsToCome(r, n))
  {
    var i: nat :| Done(After(r, Resume(d), i)) && d' == Finished(After(r, Resume(d), i)) && log == Log(r, Resume(d), i);
    if Done(After(r, Start(), n)) {
      ResumedEndLoss(r, d, n, i);
      assert d.rows + map[] == d.rows;
    } else {
      DrainedLoss(r, d, n, i);
    }
  }

  lemma DrainedLoss(r: Remote, d: Durable, n: nat, i: nat)
    requires SteersAt(r, d, n) && !Done(After(r, Start(), n)) && Done(After(r, Resume(d), i))
    ensures After(r, Resume(d), i) == End(r).(rows := d.rows + RowsToCome(r, n))
  {
    ResumedLoss(r, d, n, i);
    RowsWhenDone(r, n, i);
    DoneUnique(r, Start(), n + i, RunLength(r));
  }

  /** Such a crawl exists: every call could return without error. */
  lemma SomeCompletion(r: Remote, d: Durable) returns (d': Durable, log: seq<Fetch>)
    ensures Completed(r, d, d', log)
  {
    var i := Terminates(r, Resume(d));
    d', log := Finished(After(r, Resume(d), i)), Log(r, Resume(d), i);
  }

  /** A crawl of `d` that returns without error leaves every row of the snapshot. */
  ghost predicate Mendable(r: Remote, d: Durable) {
    forall d', log :: Completed(r, d, d', log) ==> d'.rows == End(r).rows
  }

  /** Some row is neither stored nor on a page still to come. */
  ghost predicate LostRows(r: Remote, d: Durable) {
    exists n: nat :: SteersAt(r, d, n) && d.rows + RowsToCome(r, n) != End(r).rows
  }

  /** Data at step `n` can be mended exactly when what is stored and what is to come make up the snapshot's rows. */
  lemma MendableExact(r: Remote, d: Durable, n: nat)
    requires SteersAt(r, d, n)
    ensures Mendable(r, d) <==> d.rows + RowsToCome(r, n) == End(r).rows
    ensures Mendable(r, d) <==> !LostRows(r, d)
  {
    var d1, log1 := SomeCompletion(r, d);
    LossExact(r, d, d1, log1, n);
    forall d', log | Completed(r, d, d', log)
      ensures d'.rows == d.rows + RowsToCome(r, n)
    {
      LossExact(r, d, d', log, n);
    }
    forall m: nat | SteersAt(r, d, m)
      ensures d.rows + RowsToCome(r, m) == d.rows + RowsToCome(r, n)
    {
      LossExact(r, d, d1, log1, m);
    }
  }

  /** Data of the uninterrupted run has lost nothing. */
  lemma OnRunMendable(r: Remote, d: Durable, n: nat)
    requires OnRun(r, d, n)
    ensures Mendable(r, d)
  {
    forall d', log | Completed(r, d, d', log)
      ensures d'.rows == End(r).rows
    {
      CompletedAtEnd(r, d, d', log, n);
    }
  }

  // ----- interruption -----

  /** What an interrupted call leaves steers on, and the rows stored and to come are what they were. */
  lemma InterruptedLoss(r: Remote, d: Durable, d': Durable, log: seq<Fetch>, n: nat) returns (n': nat)
    requires IdsNonempty(r) && SteersAt(r, d, n) && Interrupted(r, d, d', log)
    ensures SteersAt(r, d', n') && d'.rows + RowsToCome(r, n') == d.rows + RowsToCome(r, n)
  {
    if d' == d && log == [] {
      return n;
    }
    var i: nat :| StoppedAt(r, d, d', log, i);
    if Done(After(r, Start(), n)) {
      ResumedEndLoss(r, d, n, i);
      assert false;
    } else {
      n' := StoppedLoss(r, d, d', log, n, i);
    }
  }

  /** Up to any step, what was found and what was to come are what is stored and what is still to come. */
  lemma StoredSoFar(r: Remote, d: Durable, n: nat, i: nat)
    requires SteersAt(r, d, n) && !Done(After(r, Start(), n))
    ensures After(r, Resume(d), i).rows + RowsToCome(r, n + i) == d.rows + RowsToCome(r, n)
  {
    var stored := After(r, BareAt(r, n), i).rows;
    assert After(r, Resume(d), i).rows == d.rows + stored by { ResumedLoss(r, d, n, i); }
    assert RowsToCome(r, n) == stored + RowsToCome(r, n + i) by { RowsToComeSplit(r, n, i); }
    RowsAssociate(d.rows, stored, RowsToCome(r, n + i));
  }

  /** Storing the page under the cursor leaves them what they are, before the run moves past it and after. */
  lemma StoredPage(r: Remote, st: State, m: nat)
    requires var here := After(r, Start(), m); here.active.At? && st == here.(rows := st.rows)
    ensures Visit(r, st).rows + RowsToCome(r, m) == st.rows + RowsToCome(r, m)
    ensures Visit(r, st).rows + RowsToCome(r, m + 1) == st.rows + RowsToCome(r, m)
  {
    var page, rest := CursorRows(r, st), RowsToCome(r, m + 1);
    assert RowsToCome(r, m) == page + rest by { RowsToComeNext(r, m); }
    assert Visit(r, st).rows == st.rows + page by { NextRows(r, st); }
    RowsAssociate(st.rows, page, rest);
    assert (st.rows + page) + (page + rest) == st.rows + (page + rest);
  }

  lemma AroundPageLoss(r: Remote, st: State, m: nat, d: Durable, fetched: seq<Fetch>) returns (m': nat)
    requires IdsNonempty(r) && AroundCursor(r, st, m, d, fetched)
    ensures SteersAt(r, d, m') && d.rows + RowsToCome(r, m') == st.rows + RowsToCome(r, m)
  {
    m' := AroundPageSteers(r, m, st, d, fetched);
    StoredPage(r, st, m);
  }

  /** `d` may be found around the page of the run's step `m`, if `st` is where a call stands with its rows. */
  ghost predicate AroundCursor(r: Remote, st: State, m: nat, d: Durable, fetched: seq<Fetch>) {
    var here := After(r, Start(), m);
    here.active.At? && st == here.(rows := st.rows) && AroundPage(r, st, d, fetched)
  }

  lemma StoppedLoss(r: Remote, d: Durable, d': Durable, log: seq<Fetch>, n: nat, i: nat) returns (n': nat)
    requires IdsNonempty(r) && SteersAt(r, d, n) && !Done(After(r, Start(), n)) && StoppedAt(r, d, d', log, i)
    ensures SteersAt(r, d', n') && d'.rows + RowsToCome(r, n') == d.rows + RowsToCome(r, n)
  {
    var st := After(r, Resume(d), i);
    var fetched := if log == Log(r, Resume(d), i) && AroundPage(r, st, d', []) then [] else FetchOf(st);
    assert AroundCursor(r, st, n + i, d', fetched) by { ResumedLoss(r, d, n, i); }
    n' := AroundPageLoss(r, st, n + i, d', fetched);
    StoredSoFar(r, d, n, i);
  }

  // ----- one call at a time -----

  lemma EndingSteers(r: Remote, rows: Rows)
    ensures SteersAt(r, Ending(r, rows), RunLength(r))
  {
    FinishedOnRun(r);
  }

  lemma Override(b: Rows, s: Rows, page: Rows, rest: Rows)
    ensures (b + page) + (s + (page + rest)) == b + (s + (page + rest))
  {
  }

  /** Storing a page that data behind it still has to come leaves what that data leads to. */
  lemma PageStoredBehind(r: Remote, rows: Rows, m: nat, st: State, n: nat)
    requires m <= n
    requires var here := After(r, Start(), n); here.active.At? && st == here.(rows := rows)
    ensures Visit(r, st).rows + RowsToCome(r, m) == rows + RowsToCome(r, m)
  {
    var i := n - m;
    var s, page, rest := After(r, BareAt(r, m), i).rows, CursorRows(r, st), RowsToCome(r, n + 1);
    assert Visit(r, st).rows == rows + page by { NextRows(r, st); }
    assert RowsToCome(r, n) == page + rest by { RowsToComeNext(r, n); }
    assert RowsToCome(r, m) == s + RowsToCome(r, n) by {
      RowsToComeSplit(r, m, i);
      assert m + i == n;
    }
    Override(rows, s, page, rest);
  }

  lemma CursorSteers(r: Remote, pos: Durable, n: nat)
    requires SteersAt(r, pos, n) && Resume(pos).active.At?
    ensures After(r, Start(), n).active.At? && Resume(pos) == After(r, Start(), n).(rows := pos.rows)
  {
  }

  /** Going on from behind a stored page. */
  lemma PastPage(r: Remote, pos: Durable, n: nat) returns (n': nat)
    requires IdsNonempty(r) && SteersAt(r, pos, n) && Resume(pos).active.At?
    ensures var st := Resume(pos);
            var next := Durable(Some(PostPage(r, st)), Visit(r, st).rows);
            n <= n' && SteersAt(r, next, n') && next.rows + RowsToCome(r, n') == pos.rows + RowsToCome(r, n)
  {
    var st := Resume(pos);
    var next := Durable(Some(PostPage(r, st)), Visit(r, st).rows);
    CursorSteers(r, pos, n);
    assert AroundPage(r, st, next, FetchOf(st));
    n' := AroundPageSteers(r, n, st, next, FetchOf(st));
    StoredPage(r, st, n);
  }
}
