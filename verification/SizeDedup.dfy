/** Duplicate shares by total size: the per-crawl query and the bulk clean-up of store/dedup.go. */
module SizeDedup {
  import opened Basics
  import opened Shares

  /** A crawlable share of known size, no smaller than the threshold. */
  predicate Eligible(s: Share, minSize: int) {
    s.fileSize >= minSize && s.fileSize > 0 && Crawlable(s)
  }

  ghost predicate UniqueIds(rows: seq<Share>) {
    forall i, j :: 0 <= i < j < |rows| ==> rows[i].id != rows[j].id
  }

  /** Row `c` is the oldest eligible share of this size. */
  ghost predicate Canonical(rows: seq<Share>, c: nat, size: int, minSize: int) {
    && c < |rows| && Eligible(rows[c], minSize) && rows[c].fileSize == size
    && forall j :: 0 <= j < |rows| && j != c && Eligible(rows[j], minSize) && rows[j].fileSize == size ==>
        Older(rows[c], rows[j])
  }

  /** Row `i` is eligible, and an older eligible share has its size. */
  ghost predicate Loser(rows: seq<Share>, i: nat, minSize: int) {
    && i < |rows| && Eligible(rows[i], minSize)
    && exists j :: 0 <= j < |rows| && Eligible(rows[j], minSize) && rows[j].fileSize == rows[i].fileSize
        && Older(rows[j], rows[i])
  }

  lemma CanonicalUnique(rows: seq<Share>, c: nat, d: nat, size: int, minSize: int)
    requires Canonical(rows, c, size, minSize) && Canonical(rows, d, size, minSize)
    ensures c == d
  {
  }

  /** A size some eligible share has, has an oldest one. */
  lemma {:induction false} CanonicalExists(rows: seq<Share>, i: nat, n: nat, minSize: int) returns (c: nat)
    requires UniqueIds(rows) && i < n <= |rows| && Eligible(rows[i], minSize)
    ensures c < n && Eligible(rows[c], minSize) && rows[c].fileSize == rows[i].fileSize
    ensures forall j :: 0 <= j < n && j != c && Eligible(rows[j], minSize) && rows[j].fileSize == rows[i].fileSize ==>
              Older(rows[c], rows[j])
  {
    c := i;
    for k := 0 to n
      invariant c < n && Eligible(rows[c], minSize) && rows[c].fileSize == rows[i].fileSize
      invariant forall j ::
                  0 <= j < k && j != c && Eligible(rows[j], minSize) && rows[j].fileSize == rows[i].fileSize ==>
                    Older(rows[c], rows[j])
    {
      if k != c && Eligible(rows[k], minSize) && rows[k].fileSize == rows[i].fileSize && !Older(rows[c], rows[k]) {
        c := k;
      }
    }
  }

  lemma CanonicalOf(rows: seq<Share>, i: nat, minSize: int) returns (c: nat)
    requires UniqueIds(rows) && i < |rows| && Eligible(rows[i], minSize)
    ensures Canonical(rows, c, rows[i].fileSize, minSize)
    ensures Loser(rows, i, minSize) <==> c != i
  {
    c := CanonicalExists(rows, i, |rows|, minSize);
  }

  // ----- the per-crawl query -----

  /** The answer FindDuplicateShare owes: the oldest share of that size, unless it is the asker or there is none. */
  ghost predicate DuplicateAnswer(rows: seq<Share>, code: string, size: int, minSize: int, answer: Option<string>) {
    match answer
    case Some(canonical) =>
      canonical != code && exists c: nat :: Canonical(rows, c, size, minSize) && rows[c].code == canonical
    case None => forall c: nat :: Canonical(rows, c, size, minSize) ==> rows[c].code == code
  }

  method FindDuplicateShare(rows: seq<Share>, code: string, size: int, minSize: int) returns (answer: Option<string>)
    requires UniqueIds(rows)
    ensures DuplicateAnswer(rows, code, size, minSize, answer)
  {
    if size <= 0 || size < minSize {
      return None;
    }
    var oldest: Option<Share>, at: nat := None, 0;
    for i := 0 to |rows|
      invariant oldest.None? ==> forall j :: 0 <= j < i ==> !(Eligible(rows[j], minSize) && rows[j].fileSize == size)
      invariant oldest.Some? ==>
                  at < i && oldest.value == rows[at] && Eligible(rows[at], minSize) && rows[at].fileSize == size
      invariant oldest.Some? ==>
                  forall j :: 0 <= j < i && j != at && Eligible(rows[j], minSize) && rows[j].fileSize == size ==>
                    Older(rows[at], rows[j])
    {
      if rows[i].fileSize == size && rows[i].fileSize >= minSize && rows[i].fileSize > 0 && Crawlable(rows[i]) {
        if oldest.None? || Older(rows[i], oldest.value) {
          oldest, at := Some(rows[i]), i;
        }
      }
    }
    if oldest.None? || oldest.value.code == code {
      if oldest.Some? {
        assert Canonical(rows, at, size, minSize);
        forall c: nat | Canonical(rows, c, size, minSize) ensures rows[c].code == code {
          CanonicalUnique(rows, c, at, size, minSize);
        }
      }
      return None;
    }
    assert Canonical(rows, at, size, minSize);
    answer := Some(oldest.value.code);
  }

  /**
   The query and the clean-up apply one rule: a crawlable share is a loser exactly when the query,
   on its stored size, names another share.
   */
  lemma QueryAgrees(rows: seq<Share>, i: nat, minSize: int, answer: Option<string>)
    requires UniqueIds(rows) && UniqueCodes(rows) && i < |rows| && Crawlable(rows[i])
    requires DuplicateAnswer(rows, rows[i].code, rows[i].fileSize, minSize, answer)
    ensures Loser(rows, i, minSize) <==> answer.Some?
    ensures answer.Some? ==>
              exists c: nat :: Canonical(rows, c, rows[i].fileSize, minSize) && rows[c].code == answer.value
  {
    if Eligible(rows[i], minSize) {
      var c := CanonicalOf(rows, i, minSize);
      if answer.Some? {
        var d: nat :| Canonical(rows, d, rows[i].fileSize, minSize) && rows[d].code == answer.value;
        CanonicalUnique(rows, c, d, rows[i].fileSize, minSize);
      }
    }
  }

  // ----- the scan -----

  /** The order of the clean-up's scan. */
  predicate ScanBefore(a: Share, b: Share) {
    a.fileSize < b.fileSize || (a.fileSize == b.fileSize && Older(a, b))
  }

  function Place(s: Share, scan: seq<Share>): seq<Share> {
    if scan == [] || ScanBefore(s, scan[0]) then [s] + scan else [scan[0]] + Place(s, scan[1..])
  }

  /** `SELECT … WHERE eligible ORDER BY file_size, last_crawled_at, id`. */
  function Scan(rows: seq<Share>, minSize: int): seq<Share> {
    if rows == [] then []
    else
      var rest := Scan(rows[..|rows| - 1], minSize);
      var last := rows[|rows| - 1];
      if Eligible(last, minSize) then Place(last, rest) else rest
  }

  ghost predicate InScanOrder(scan: seq<Share>) {
    forall i, j :: 0 <= i < j < |scan| ==> ScanBefore(scan[i], scan[j])
  }

  lemma {:induction false} PlaceHolds(s: Share, scan: seq<Share>)
    requires InScanOrder(scan) && forall t :: t in scan ==> t.id != s.id
    ensures InScanOrder(Place(s, scan))
    ensures forall t :: t in Place(s, scan) <==> t == s || t in scan
    decreases |scan|
  {
    if scan != [] && !ScanBefore(s, scan[0]) {
      assert scan == [scan[0]] + scan[1..];
      assert forall t :: t in scan <==> t == scan[0] || t in scan[1..];
      PlaceHolds(s, scan[1..]);
      var rest := Place(s, scan[1..]);
      forall j | 0 <= j < |rest|
        ensures ScanBefore(scan[0], rest[j])
      {
        assert rest[j] in rest;
        if rest[j] != s {
          var k :| 0 <= k < |scan[1..]| && scan[1..][k] == rest[j];
          assert scan[k + 1] == rest[j];
        }
      }
    }
  }

  /** The scan is in order and lists exactly the eligible rows. */
  lemma {:induction false} ScanHolds(rows: seq<Share>, minSize: int)
    requires UniqueIds(rows)
    ensures InScanOrder(Scan(rows, minSize))
    ensures forall s :: s in Scan(rows, minSize) <==> s in rows && Eligible(s, minSize)
  {
    if rows != [] {
      var n := |rows| - 1;
      ScanHolds(rows[..n], minSize);
      assert rows == rows[..n] + [rows[n]];
      assert forall s :: s in rows <==> s in rows[..n] || s == rows[n];
      if Eligible(rows[n], minSize) {
        PlaceHolds(rows[n], Scan(rows[..n], minSize));
      }
    }
  }

  // ----- groups and actions -----

  datatype DedupeAction = DedupeAction(loser: string, canonical: string, fileCount: nat)

  /** The shares of one size, in scan order. */
  function OfSize(scan: seq<Share>, size: int): seq<Share> {
    if scan == [] then []
    else OfSize(scan[..|scan| - 1], size) + (if scan[|scan| - 1].fileSize == size then [scan[|scan| - 1]] else [])
  }

  lemma {:induction false} OfSizeHolds(scan: seq<Share>, size: int)
    requires InScanOrder(scan)
    ensures forall s :: s in OfSize(scan, size) <==> s in scan && s.fileSize == size
    ensures forall i, j :: 0 <= i < j < |OfSize(scan, size)| ==> Older(OfSize(scan, size)[i], OfSize(scan, size)[j])
  {
    if scan != [] {
      var n := |scan| - 1;
      OfSizeHolds(scan[..n], size);
      assert scan == scan[..n] + [scan[n]];
      assert forall s :: s in scan <==> s in scan[..n] || s == scan[n];
      var front := OfSize(scan[..n], size);
      forall i | 0 <= i < |front|
        ensures scan[n].fileSize == size ==> Older(front[i], scan[n])
      {
        assert front[i] in front;
        var k :| 0 <= k < n && scan[..n][k] == front[i];
        assert ScanBefore(scan[k], scan[n]);
      }
    }
  }

  type FileKey = (string, string)

  function FilesOf(files: set<FileKey>, code: string): set<FileKey> {
    set f | f in files && f.0 == code
  }

  /** The first share of a size, in scan order, is the oldest of the table. */
  lemma FirstIsCanonical(rows: seq<Share>, size: int, minSize: int) returns (c: nat)
    requires UniqueIds(rows) && OfSize(Scan(rows, minSize), size) != []
    ensures Canonical(rows, c, size, minSize) && rows[c] == OfSize(Scan(rows, minSize), size)[0]
  {
    var scan := Scan(rows, minSize);
    var members := OfSize(scan, size);
    ScanHolds(rows, minSize);
    OfSizeHolds(scan, size);
    assert members[0] in members;
    c :| 0 <= c < |rows| && rows[c] == members[0];
    forall j | 0 <= j < |rows| && j != c && Eligible(rows[j], minSize) && rows[j].fileSize == size
      ensures Older(rows[c], rows[j])
    {
      assert rows[j] in rows && rows[j] in members;
      var k :| 0 <= k < |members| && members[k] == rows[j];
      assert rows[c].id != rows[j].id;
    }
  }

  /** An action names a loser of this size, its size's oldest share, and the files it will lose. */
  ghost predicate ActionOk(rows: seq<Share>, files: set<FileKey>, minSize: int, a: DedupeAction, i: nat) {
    match a
    case DedupeAction(loser, canonical, fileCount) =>
      && Loser(rows, i, minSize)
      && rows[i].code == loser
      && (exists c: nat :: Canonical(rows, c, rows[i].fileSize, minSize) && rows[c].code == canonical)
      && fileCount == |FilesOf(files, loser)|
  }

  /** The actions are for exactly the losers in `sizes`, each once; `at` gives their rows. */
  ghost predicate Actions(rows: seq<Share>, files: set<FileKey>, minSize: int, actions: seq<DedupeAction>,
                          at: seq<nat>, sizes: set<int>) {
    && |at| == |actions|
    && (forall k :: 0 <= k < |at| ==> ActionOk(rows, files, minSize, actions[k], at[k]))
    && (forall i: nat :: i in at <==> Loser(rows, i, minSize) && rows[i].fileSize in sizes)
    && (forall k, l :: 0 <= k < l < |at| ==> at[k] != at[l])
  }

  method GroupBySize(scan: seq<Share>) returns (groups: map<int, seq<Share>>)
    ensures forall size :: (if size in groups then groups[size] else []) == OfSize(scan, size)
  {
    groups := map[];
    for i := 0 to |scan|
      invariant forall size :: (if size in groups then groups[size] else []) == OfSize(scan[..i], size)
    {
      assert scan[..i + 1][..i] == scan[..i];
      var s := scan[i];
      ghost var before := groups;
      groups := groups[s.fileSize := (if s.fileSize in groups then groups[s.fileSize] else []) + [s]];
      forall size
        ensures (if size in groups then groups[size] else []) == OfSize(scan[..i + 1], size)
      {
        assert (if size in before then before[size] else []) == OfSize(scan[..i], size);
      }
    }
    assert scan[..|scan|] == scan;
  }

  /** Row positions of the losers of one size, in scan order. */
  lemma {:induction false} LosersOfSize(rows: seq<Share>, size: int, minSize: int, n: nat) returns (at: seq<nat>)
    requires UniqueIds(rows) && 1 <= n <= |OfSize(Scan(rows, minSize), size)|
    ensures |at| == n - 1
    ensures forall k :: 0 <= k < |at| ==> at[k] < |rows| && rows[at[k]] == OfSize(Scan(rows, minSize), size)[k + 1]
  {
    if n == 1 {
      at := [];
    } else {
      var front := LosersOfSize(rows, size, minSize, n - 1);
      var members := OfSize(Scan(rows, minSize), size);
      ScanHolds(rows, minSize);
      OfSizeHolds(Scan(rows, minSize), size);
      assert members[n - 1] in members;
      var i :| 0 <= i < |rows| && rows[i] == members[n - 1];
      at := front + [i];
    }
  }

  /** The members of a size after its first are exactly its losers. */
  lemma LosersExact(rows: seq<Share>, size: int, minSize: int, at: seq<nat>)
    requires UniqueIds(rows)
    requires var members := OfSize(Scan(rows, minSize), size);
             members != [] && |at| == |members| - 1
             && forall k :: 0 <= k < |at| ==> at[k] < |rows| && rows[at[k]] == members[k + 1]
    ensures forall i: nat :: i in at <==> Loser(rows, i, minSize) && rows[i].fileSize == size
    ensures forall k, l :: 0 <= k < l < |at| ==> at[k] != at[l]
  {
    var scan := Scan(rows, minSize);
    var members := OfSize(scan, size);
    ScanHolds(rows, minSize);
    OfSizeHolds(scan, size);
    var c := FirstIsCanonical(rows, size, minSize);
    forall i: nat
      ensures i in at <==> Loser(rows, i, minSize) && rows[i].fileSize == size
    {
      if i in at {
        var k :| 0 <= k < |at| && at[k] == i;
        assert members[0] in members && members[k + 1] in members;
        assert Older(members[0], members[k + 1]);
      }
      if Loser(rows, i, minSize) && rows[i].fileSize == size {
        assert rows[i] in members;
        var k :| 0 <= k < |members| && members[k] == rows[i];
        assert k > 0;
        assert rows[at[k - 1]].id == rows[i].id;
        assert at[k - 1] == i;
      }
    }
    forall k, l | 0 <= k < l < |at|
      ensures at[k] != at[l]
    {
      assert Older(members[k + 1], members[l + 1]);
    }
  }

  /** One group's actions: all but its first member, against its first. */
  method PlanGroup(members: seq<Share>, rows: seq<Share>, files: set<FileKey>, minSize: int, ghost size: int)
    returns (actions: seq<DedupeAction>, ghost at: seq<nat>)
    requires UniqueIds(rows) && members == OfSize(Scan(rows, minSize), size)
    ensures Actions(rows, files, minSize, actions, at, {size})
  {
    actions := [];
    if |members| == 0 {
      at := [];
      NoLosers(rows, size, minSize);
      return;
    }
    at := LosersOfSize(rows, size, minSize, |members|);
    LosersExact(rows, size, minSize, at);
    ghost var c := FirstIsCanonical(rows, size, minSize);
    var canonical := members[0].code;
    for k := 1 to |members|
      invariant |actions| == k - 1
      invariant forall l :: 0 <= l < |actions| ==> ActionOk(rows, files, minSize, actions[l], at[l])
    {
      var loser := members[k].code;
      assert at[k - 1] in at;
      actions := actions + [DedupeAction(loser, canonical, |FilesOf(files, loser)|)];
    }
  }

  lemma NoLosers(rows: seq<Share>, size: int, minSize: int)
    requires UniqueIds(rows) && OfSize(Scan(rows, minSize), size) == []
    ensures forall i: nat :: !(Loser(rows, i, minSize) && rows[i].fileSize == size)
  {
    ScanHolds(rows, minSize);
    OfSizeHolds(Scan(rows, minSize), size);
    forall i: nat
      ensures !(Loser(rows, i, minSize) && rows[i].fileSize == size)
    {
      assert i < |rows| ==> rows[i] in rows;
    }
  }

  lemma ActionsJoin(rows: seq<Share>, files: set<FileKey>, minSize: int, a: seq<DedupeAction>, atA: seq<nat>,
                    b: seq<DedupeAction>,
                    atB: seq<nat>, sizes: set<int>, size: int)
    requires Actions(rows, files, minSize, a, atA, sizes) && Actions(rows, files, minSize, b, atB, {size})
             && size !in sizes
    ensures Actions(rows, files, minSize, a + b, atA + atB, sizes + {size})
  {
    forall k | 0 <= k < |atA + atB|
      ensures ActionOk(rows, files, minSize, (a + b)[k], (atA + atB)[k])
    {
      if k < |atA| {
        assert ActionOk(rows, files, minSize, a[k], atA[k]);
      } else {
        assert ActionOk(rows, files, minSize, b[k - |atA|], atB[k - |atA|]);
      }
    }
    assert forall i :: !(i in atA && i in atB);
    DistinctJoin(atA, atB);
  }

  /** The planned actions, taking the sizes in whatever order the map yields them. */
  method PlanBySize(rows: seq<Share>, files: set<FileKey>, minSize: int)
    returns (actions: seq<DedupeAction>, ghost at: seq<nat>)
    requires UniqueIds(rows)
    ensures Plan(rows, files, minSize, actions, at)
  {
    var scan := Scan(rows, minSize);
    var groups := GroupBySize(scan);
    var rest := groups.Items;
    ghost var seen: set<int> := {};
    actions, at := [], [];
    while rest != {}
      invariant forall group :: group in rest <==> group in groups.Items && group.0 !in seen
      invariant Actions(rows, files, minSize, actions, at, seen)
      decreases rest
    {
      var group :| group in rest;
      var (size, members) := group;
      assert size in groups && groups[size] == members == OfSize(scan, size);
      var more;
      ghost var atMore;
      more, atMore := PlanGroup(members, rows, files, minSize, size);
      ActionsJoin(rows, files, minSize, actions, at, more, atMore, seen, size);
      actions, at := actions + more, at + atMore;
      rest, seen := rest - {group}, seen + {size};
    }
    assert forall size :: size in groups ==> (size, groups[size]) in groups.Items;
    forall i: nat | Loser(rows, i, minSize)
      ensures rows[i].fileSize in seen
    {
      if rows[i].fileSize !in groups {
        NoLosers(rows, rows[i].fileSize, minSize);
        assert false;
      }
    }
  }

  /** One action for each loser of the table, and no others. */
  ghost predicate Plan(rows: seq<Share>, files: set<FileKey>, minSize: int, actions: seq<DedupeAction>, at: seq<nat>) {
    && |at| == |actions|
    && (forall k :: 0 <= k < |at| ==> ActionOk(rows, files, minSize, actions[k], at[k]))
    && (forall i: nat :: i in at <==> Loser(rows, i, minSize))
    && (forall k, l :: 0 <= k < l < |at| ==> at[k] != at[l])
  }

  // ----- applying -----

  /** Row `i` once every loser is marked. */
  ghost predicate DedupedRow(rows: seq<Share>, i: nat, minSize: int, after: Share)
    requires i < |rows|
  {
    if Loser(rows, i, minSize) then
      exists c: nat :: Canonical(rows, c, rows[i].fileSize, minSize) && after == MarkedDuplicate(rows[i], rows[c].code)
    else after == rows[i]
  }

  /**
   The table and the files once every loser is marked and its files are gone. Nothing here depends
   on the order of the actions.
   */
  ghost predicate Deduped(rows: seq<Share>, files: set<FileKey>, minSize: int, rows': seq<Share>,
                          files': set<FileKey>) {
    && |rows'| == |rows|
    && (forall i :: 0 <= i < |rows| ==> DedupedRow(rows, i, minSize, rows'[i]))
    && (forall f :: f in files' <==> f in files && !LosesFiles(rows, minSize, f))
  }

  ghost predicate LosesFiles(rows: seq<Share>, minSize: int, f: FileKey) {
    exists i: nat :: Loser(rows, i, minSize) && rows[i].code == f.0
  }

  /** One outcome, whatever the order in which sizes are handled. */
  lemma DedupedUnique(rows: seq<Share>, files: set<FileKey>, minSize: int, rows1: seq<Share>, files1: set<FileKey>,
                      rows2: seq<Share>, files2: set<FileKey>)
    requires Deduped(rows, files, minSize, rows1, files1) && Deduped(rows, files, minSize, rows2, files2)
    ensures rows1 == rows2 && files1 == files2
  {
    forall i | 0 <= i < |rows|
      ensures rows1[i] == rows2[i]
    {
      assert DedupedRow(rows, i, minSize, rows1[i]) && DedupedRow(rows, i, minSize, rows2[i]);
      if Loser(rows, i, minSize) {
        var c: nat :| Canonical(rows, c, rows[i].fileSize, minSize)
            && rows1[i] == MarkedDuplicate(rows[i], rows[c].code);
        var d: nat :| Canonical(rows, d, rows[i].fileSize, minSize)
            && rows2[i] == MarkedDuplicate(rows[i], rows[d].code);
        CanonicalUnique(rows, c, d, rows[i].fileSize, minSize);
      }
    }
  }

  /**
   Afterwards each size has at most one eligible share, which is the oldest there was; so a second
   run finds no loser.
   */
  lemma OnePerSize(rows: seq<Share>, files: set<FileKey>, minSize: int, rows': seq<Share>, files': set<FileKey>, i: nat)
    requires UniqueIds(rows) && Deduped(rows, files, minSize, rows', files') && i < |rows|
    ensures Eligible(rows'[i], minSize) <==> Canonical(rows, i, rows[i].fileSize, minSize)
    ensures Eligible(rows'[i], minSize) ==> rows'[i] == rows[i]
    ensures !Loser(rows', i, minSize)
  {
    forall j | 0 <= j < |rows|
      ensures Eligible(rows'[j], minSize) <==> Canonical(rows, j, rows[j].fileSize, minSize)
      ensures Eligible(rows'[j], minSize) ==> rows'[j] == rows[j]
    {
      assert DedupedRow(rows, j, minSize, rows'[j]);
      if Eligible(rows[j], minSize) {
        var c := CanonicalOf(rows, j, minSize);
        if Canonical(rows, j, rows[j].fileSize, minSize) {
          CanonicalUnique(rows, j, c, rows[j].fileSize, minSize);
        }
      }
    }
    if Loser(rows', i, minSize) {
      var j :| 0 <= j < |rows'| && Eligible(rows'[j], minSize) && rows'[j].fileSize == rows'[i].fileSize
          && Older(rows'[j], rows'[i]);
      CanonicalUnique(rows, i, j, rows[i].fileSize, minSize);
      assert false;
    }
  }

  // ----- told by the columns -----

  /** ACTIVE, STALE or QUARANTINE. */
  predicate InPlay(s: Share) {
    s.status.Active? || s.status.Stale? || s.status.Quarantine?
  }

  /** Of the crawlable shares of this size, row `c` was last crawled first, and has the least id of those that were. */
  ghost predicate Earliest(rows: seq<Share>, c: nat, size: int) {
    && c < |rows| && InPlay(rows[c]) && rows[c].fileSize == size
    && forall j :: 0 <= j < |rows| && j != c && InPlay(rows[j]) && rows[j].fileSize == size ==>
         rows[c].lastCrawledAt < rows[j].lastCrawledAt
         || (rows[c].lastCrawledAt == rows[j].lastCrawledAt && rows[c].id < rows[j].id)
  }

  lemma EarliestIff(rows: seq<Share>, c: nat, size: int, minSize: int)
    ensures Canonical(rows, c, size, minSize) <==> size > 0 && size >= minSize && Earliest(rows, c, size)
  {
  }

  /** The query names the earliest share of a positive size that reaches the threshold, if that is another share. */
  lemma AnswerIff(rows: seq<Share>, code: string, size: int, minSize: int, answer: Option<string>)
    requires UniqueIds(rows) && DuplicateAnswer(rows, code, size, minSize, answer)
    ensures forall c: nat :: Earliest(rows, c, size) ==>
              answer == if size > 0 && size >= minSize && rows[c].code != code then Some(rows[c].code) else None
    ensures answer.Some? ==> exists c: nat :: Earliest(rows, c, size)
  {
    forall c: nat
      ensures Canonical(rows, c, size, minSize) <==> size > 0 && size >= minSize && Earliest(rows, c, size)
    {
      EarliestIff(rows, c, size, minSize);
    }
    if answer.Some? {
      var d: nat :| Canonical(rows, d, size, minSize) && rows[d].code == answer.value;
    }
  }

  /**
   After a run that applied, a share in play of a positive size that reaches the minimum stays so
   exactly if it is the earliest of its size; the others become duplicates of that one and lose
   their files. Every other share is left as it was.
   */
  lemma KeptIff(rows: seq<Share>, files: set<FileKey>, minSize: int, rows': seq<Share>, files': set<FileKey>, i: nat)
    requires UniqueIds(rows) && Deduped(rows, files, minSize, rows', files') && i < |rows|
    ensures !InPlay(rows[i]) || rows[i].fileSize <= 0 || rows[i].fileSize < minSize ==> rows'[i] == rows[i]
    ensures InPlay(rows[i]) && rows[i].fileSize > 0 && rows[i].fileSize >= minSize ==>
              && (InPlay(rows'[i]) <==> Earliest(rows, i, rows[i].fileSize))
              && (InPlay(rows'[i]) ==> rows'[i] == rows[i])
              && (!InPlay(rows'[i]) ==> exists c: nat ::
                    && Earliest(rows, c, rows[i].fileSize)
                    && rows'[i] == rows[i].(status := DuplicateShare, duplicateOf := rows[c].code,
                                            failureCount := 0, retryAfter := 0))
  {
    assert DedupedRow(rows, i, minSize, rows'[i]);
    EarliestIff(rows, i, rows[i].fileSize, minSize);
    if Eligible(rows[i], minSize) {
      var c := CanonicalOf(rows, i, minSize);
      EarliestIff(rows, c, rows[i].fileSize, minSize);
      if Canonical(rows, i, rows[i].fileSize, minSize) {
        CanonicalUnique(rows, i, c, rows[i].fileSize, minSize);
      }
      if Loser(rows, i, minSize) {
        var d: nat :| Canonical(rows, d, rows[i].fileSize, minSize)
            && rows'[i] == MarkedDuplicate(rows[i], rows[d].code);
        EarliestIff(rows, d, rows[i].fileSize, minSize);
      }
    }
  }

  /** The files that go are those of the shares that were marked. */
  lemma FilesKeptIff(rows: seq<Share>, files: set<FileKey>, minSize: int, rows': seq<Share>, files': set<FileKey>,
                     f: FileKey)
    requires UniqueIds(rows) && Deduped(rows, files, minSize, rows', files')
    ensures f in files' <==> f in files && forall i :: 0 <= i < |rows| && rows[i].code == f.0 ==> rows'[i] == rows[i]
  {
    forall i: nat | i < |rows|
      ensures rows'[i] == rows[i] <==> !Loser(rows, i, minSize)
    {
      assert DedupedRow(rows, i, minSize, rows'[i]);
    }
  }

  /** A second run plans nothing. */
  lemma SecondRunPlansNothing(rows: seq<Share>, files: set<FileKey>, minSize: int, rows': seq<Share>,
                              files': set<FileKey>,
                              actions: seq<DedupeAction>, at: seq<nat>)
    requires UniqueIds(rows) && Deduped(rows, files, minSize, rows', files')
             && Plan(rows', files', minSize, actions, at)
    ensures actions == []
  {
    forall i: nat
      ensures i !in at
    {
      if i < |rows| {
        OnePerSize(rows, files, minSize, rows', files', i);
      }
    }
    FirstIn(at);
  }

  lemma FirstIn(xs: seq<nat>)
    ensures xs == [] || xs[0] in xs
  {
  }

  function WithDuplicate(rows: seq<Share>, code: string, canonical: string): seq<Share> {
    UpdateWhere(rows, code, (s: Share) => MarkedDuplicate(s, canonical))
  }

  /** Rows and files after the first `n` actions. */
  ghost predicate AppliedUpTo(rows: seq<Share>, files: set<FileKey>, actions: seq<DedupeAction>, at: seq<nat>, n: nat,
                              rows': seq<Share>, files': set<FileKey>)
  {
    && |rows'| == |rows| && n <= |at| == |actions|
    && (forall i :: 0 <= i < |rows| && i !in at[..n] ==> rows'[i] == rows[i])
    && (forall k :: 0 <= k < n && at[k] < |rows| ==> rows'[at[k]] == MarkedDuplicate(rows[at[k]], actions[k].canonical))
    && (forall f :: f in files' <==> f in files && forall k :: 0 <= k < n ==> actions[k].loser != f.0)
  }

  ghost predicate RowsUpTo(rows: seq<Share>, files: set<FileKey>, actions: seq<DedupeAction>, at: seq<nat>, n: nat,
                           rows': seq<Share>) {
    exists files' :: AppliedUpTo(rows, files, actions, at, n, rows', files')
  }

  ghost predicate FilesUpTo(rows: seq<Share>, files: set<FileKey>, actions: seq<DedupeAction>, at: seq<nat>, n: nat,
                            files': set<FileKey>) {
    exists rows' :: AppliedUpTo(rows, files, actions, at, n, rows', files')
  }

  /** What the plan says of one action. */
  lemma PlanAt(rows: seq<Share>, files: set<FileKey>, minSize: int, actions: seq<DedupeAction>, at: seq<nat>, n: nat)
    requires Plan(rows, files, minSize, actions, at) && n < |actions|
    ensures at[n] < |rows| && rows[at[n]].code == actions[n].loser && at[n] !in at[..n]
  {
    assert ActionOk(rows, files, minSize, actions[n], at[n]);
  }

  lemma AppliedNext(rows: seq<Share>, files: set<FileKey>, actions: seq<DedupeAction>, at: seq<nat>, n: nat,
                    rows': seq<Share>, files': set<FileKey>)
    requires UniqueCodes(rows) && n < |actions| == |at|
    requires at[n] < |rows| && rows[at[n]].code == actions[n].loser && at[n] !in at[..n]
    requires AppliedUpTo(rows, files, actions, at, n, rows', files')
    ensures AppliedUpTo(rows, files, actions, at, n + 1,
                        WithDuplicate(rows', actions[n].loser, actions[n].canonical),
                        files' - FilesOf(files', actions[n].loser))
  {
    var rows'' := WithDuplicate(rows', actions[n].loser, actions[n].canonical);
    assert at[..n + 1] == at[..n] + [at[n]];
    forall i | 0 <= i < |rows|
      ensures rows''[i] == if i == at[n] then MarkedDuplicate(rows[i], actions[n].canonical) else rows'[i]
    {
      SameCode(rows, files, actions, at, n, rows', files', i);
      assert rows[i].code == actions[n].loser <==> i == at[n];
    }
    forall k | 0 <= k < n && at[k] < |rows|
      ensures rows''[at[k]] == MarkedDuplicate(rows[at[k]], actions[k].canonical)
    {
      assert at[..n][k] == at[k] && at[k] in at[..n];
    }
  }

  lemma SameCode(rows: seq<Share>, files: set<FileKey>, actions: seq<DedupeAction>, at: seq<nat>, n: nat,
                 rows': seq<Share>, files': set<FileKey>, i: nat)
    requires AppliedUpTo(rows, files, actions, at, n, rows', files') && i < |rows|
    ensures rows'[i].code == rows[i].code
  {
    if i in at[..n] {
      var k :| 0 <= k < n && at[..n][k] == i;
      assert at[k] == i;
    }
  }

  lemma AppliedAll(rows: seq<Share>, files: set<FileKey>, minSize: int, actions: seq<DedupeAction>, at: seq<nat>,
                   rows': seq<Share>, files': set<FileKey>)
    requires Plan(rows, files, minSize, actions, at)
    requires AppliedUpTo(rows, files, actions, at, |actions|, rows', files')
    ensures Deduped(rows, files, minSize, rows', files')
  {
    assert at[..|at|] == at;
    forall i | 0 <= i < |rows|
      ensures DedupedRow(rows, i, minSize, rows'[i])
    {
      if Loser(rows, i, minSize) {
        var k :| 0 <= k < |at| && at[k] == i;
        assert ActionOk(rows, files, minSize, actions[k], at[k]);
      }
    }
    forall f | f in files
      ensures LosesFiles(rows, minSize, f) <==> exists k :: 0 <= k < |actions| && actions[k].loser == f.0
    {
      if LosesFiles(rows, minSize, f) {
        var i: nat :| Loser(rows, i, minSize) && rows[i].code == f.0;
        var k :| 0 <= k < |at| && at[k] == i;
        assert ActionOk(rows, files, minSize, actions[k], at[k]);
      }
      if k :| 0 <= k < |actions| && actions[k].loser == f.0 {
        assert ActionOk(rows, files, minSize, actions[k], at[k]);
      }
    }
  }

  /** The answers for one clean-up: its scan, then marking and deleting, action by action. */
  datatype Answers = Answers(scanned: bool, marked: nat -> bool, deleted: nat -> bool)

  predicate Marks(answers: Answers, n: nat) { answers.marked(n) }

  predicate Deletes(answers: Answers, n: nat) { answers.deleted(n) }

  predicate Works(answers: Answers, n: nat) { Marks(answers, n) && Deletes(answers, n) }

  predicate AllWork(answers: Answers, n: nat) {
    if n == 0 then true else AllWork(answers, n - 1) && Works(answers, n - 1)
  }

  lemma {:induction false} FailureStays(answers: Answers, n: nat, m: nat)
    requires n < m && !Works(answers, n)
    ensures !AllWork(answers, m)
  {
    if n < m - 1 {
      FailureStays(answers, n, m - 1);
    }
  }

  /** The first action to fail is the `n`th, in its first or its second step. */
  ghost predicate FailedAt(rows: seq<Share>, files: set<FileKey>, actions: seq<DedupeAction>, at: seq<nat>,
                           answers: Answers, n: nat, rows': seq<Share>, files': set<FileKey>)
  {
    && n < |actions| && !Works(answers, n) && AllWork(answers, n)
    && if !Marks(answers, n) then AppliedUpTo(rows, files, actions, at, n, rows', files')
       else RowsUpTo(rows, files, actions, at, n + 1, rows') && FilesUpTo(rows, files, actions, at, n, files')
  }

  /** The share and file tables, as the clean-up updates them. */
  class SizeTable {
    var rows: seq<Share>
    var files: set<FileKey>

    constructor (rows: seq<Share>, files: set<FileKey>)
      ensures this.rows == rows && this.files == files
    {
      this.rows, this.files := rows, files;
    }

    method MarkShareDuplicate(code: string, canonical: string, works: bool)
      modifies this`rows
      ensures rows == if works
                      then WithDuplicate(old(rows), code, canonical)
                      else old(rows)
    {
      if works {
        rows := WithDuplicate(rows, code, canonical);
      }
    }

    method DeleteFiles(code: string, works: bool)
      modifies this`files
      ensures files == if works then old(files) - FilesOf(old(files), code) else old(files)
    {
      if works {
        files := files - FilesOf(files, code);
      }
    }

    /** Marks one loser and deletes its files. */
    method ApplyAction(actions: seq<DedupeAction>, n: nat, answers: Answers, ghost was: seq<Share>,
                       ghost had: set<FileKey>, minSize: int, ghost at: seq<nat>)
      requires UniqueCodes(was) && Plan(was, had, minSize, actions, at) && n < |actions|
      requires AppliedUpTo(was, had, actions, at, n, rows, files)
      modifies this
      ensures Works(answers, n) ==> AppliedUpTo(was, had, actions, at, n + 1, rows, files)
      ensures !Works(answers, n) && AllWork(answers, n) ==> FailedAt(was, had, actions, at, answers, n, rows, files)
    {
      PlanAt(was, had, minSize, actions, at, n);
      AppliedNext(was, had, actions, at, n, rows, files);
      MarkShareDuplicate(actions[n].loser, actions[n].canonical, Marks(answers, n));
      if Marks(answers, n) {
        DeleteFiles(actions[n].loser, Deletes(answers, n));
      }
    }

    /** Applies the plan, up to the first call that fails. */
    method ApplyActions(actions: seq<DedupeAction>, answers: Answers, minSize: int, ghost at: seq<nat>)
      returns (ok: bool)
      requires UniqueCodes(rows) && Plan(rows, files, minSize, actions, at)
      modifies this
      ensures ok <==> AllWork(answers, |actions|)
      ensures if ok then AppliedUpTo(old(rows), old(files), actions, at, |actions|, rows, files)
              else exists n: nat :: FailedAt(old(rows), old(files), actions, at, answers, n, rows, files)
    {
      for n := 0 to |actions|
        invariant AppliedUpTo(old(rows), old(files), actions, at, n, rows, files) && AllWork(answers, n)
      {
        ApplyAction(actions, n, answers, old(rows), old(files), minSize, at);
        if !Works(answers, n) {
          FailureStays(answers, n, |actions|);
          return false;
        }
      }
      ok := true;
    }

    method DedupeSharesBySize(minSize: int, apply: bool, answers: Answers)
      returns (ok: bool, actions: seq<DedupeAction>, ghost at: seq<nat>)
      requires UniqueIds(rows) && UniqueCodes(rows)
      modifies this
      ensures if answers.scanned then Plan(old(rows), old(files), minSize, actions, at) else !ok && actions == []
      ensures !answers.scanned || !apply ==> rows == old(rows) && files == old(files)
      ensures answers.scanned ==> (ok <==> !apply || AllWork(answers, |actions|))
      ensures apply && ok ==> Deduped(old(rows), old(files), minSize, rows, files)
      ensures answers.scanned && !ok ==>
                exists n: nat :: FailedAt(old(rows), old(files), actions, at, answers, n, rows, files)
    {
      ok, actions, at := answers.scanned, [], [];
      if !answers.scanned {
        return;
      }
      actions, at := PlanBySize(rows, files, minSize);
      if !apply {
        return;
      }
      ok := ApplyActions(actions, answers, minSize, at);
      if ok {
        AppliedAll(old(rows), old(files), minSize, actions, at, rows, files);
      }
    }
  }
}
