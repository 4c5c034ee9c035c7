/** Writing the planned documents to a fresh search index, a bounded batch at a time. */
module Indexer {
  import opened Basics
  import opened Lexical
  import opened SearchDocs
  import opened DocPlanner

  function DocID(share: string, id: string): string {
    share + "-" + id
  }

  /** One share code followed by a dash begins the other. */
  predicate Shadows(a: string, b: string) {
    a + "-" <= b
  }

  predicate Collide(a: string, x: string, b: string, y: string) {
    DocID(a, x) == DocID(b, y) && !(a == b && x == y)
  }

  /** Of two files with one document id, the shorter code shadows the longer. */
  lemma SharedIdShadows(a: string, x: string, b: string, y: string)
    requires DocID(a, x) == DocID(b, y) && |a| < |b|
    ensures Shadows(a, b)
  {
    var s := DocID(a, x);
    assert s[..|a| + 1] == a + "-" && s[..|b|] == b;
    assert s[..|b|][..|a| + 1] == s[..|a| + 1];
  }

  lemma DocIDInjective(a: string, x: string, b: string, y: string)
    requires !Shadows(a, b) && !Shadows(b, a) && DocID(a, x) == DocID(b, y)
    ensures a == b && x == y
  {
    if |a| < |b| {
      SharedIdShadows(a, x, b, y);
    } else if |b| < |a| {
      SharedIdShadows(b, y, a, x);
    } else {
      var s := DocID(a, x);
      assert a == s[..|a|] && b == s[..|b|] && x == s[|a| + 1..] && y == s[|b| + 1..];
    }
  }

  lemma ShadowCollides(a: string, b: string) returns (x: string, y: string)
    requires Shadows(a, b)
    ensures Collide(a, x, b, y)
  {
    x, y := b[|a| + 1..] + "-", "";
    assert b == (a + "-") + b[|a| + 1..];
    assert DocID(a, x) == DocID(b, y);
  }

  /** Some file of one share and some file of the other have one id exactly when one code shadows the other. */
  lemma CodesCollideIff(a: string, b: string)
    ensures (exists x, y :: Collide(a, x, b, y)) <==> Shadows(a, b) || Shadows(b, a)
  {
    if Shadows(a, b) {
      var x, y := ShadowCollides(a, b);
    } else if Shadows(b, a) {
      var y, x := ShadowCollides(b, a);
      assert Collide(a, x, b, y);
    } else {
      forall x, y ensures !Collide(a, x, b, y) {
        if DocID(a, x) == DocID(b, y) {
          DocIDInjective(a, x, b, y);
        }
      }
    }
  }

  /** What an index holds after writing the documents in order, a later one replacing an earlier one of the same id. */
  function IndexOf(docs: seq<Doc>): map<string, seq<string>> {
    if docs == [] then map[]
    else
      var last := docs[|docs| - 1];
      IndexOf(docs[..|docs| - 1])[DocID(last.share, last.id) := last.names]
  }

  function Ids(docs: seq<Doc>): (ids: seq<string>)
    ensures |ids| == |docs|
  {
    seq(|docs|, i requires 0 <= i < |docs| => DocID(docs[i].share, docs[i].id))
  }

  ghost predicate CodesApart(docs: seq<Doc>) {
    forall d, e :: d in docs && e in docs ==> !Shadows(d.share, e.share)
  }

  /** No share code in the table followed by '-' begins another; so in particular when no code has a dash. */
  ghost predicate NoneShadows(files: set<File>) {
    forall f, g :: f in files && g in files ==> !Shadows(f.share, g.share)
  }

  lemma ShadowHasDash(a: string, b: string)
    requires Shadows(a, b)
    ensures '-' in b
  {
    assert b[|a|] == '-';
  }

  lemma DashFreeNoneShadows(files: set<File>)
    requires forall f :: f in files ==> '-' !in f.share
    ensures NoneShadows(files)
  {
    forall f, g | f in files && g in files
      ensures !Shadows(f.share, g.share)
    {
      if Shadows(f.share, g.share) {
        ShadowHasDash(f.share, g.share);
      }
    }
  }

  lemma IdsDistinct(docs: seq<Doc>)
    requires KeysDistinct(docs) && CodesApart(docs)
    ensures Distinct(Ids(docs))
  {
    forall i, j | 0 <= i < j < |docs|
      ensures Ids(docs)[i] != Ids(docs)[j]
    {
      assert docs[i] in docs && docs[j] in docs;
      if Ids(docs)[i] == Ids(docs)[j] {
        DocIDInjective(docs[i].share, docs[i].id, docs[j].share, docs[j].id);
        assert false;
      }
    }
  }

  lemma IdsPrefix(docs: seq<Doc>, n: nat)
    requires n <= |docs|
    ensures Ids(docs[..n]) == Ids(docs)[..n]
  {
  }

  predicate Held(index: map<string, seq<string>>, doc: Doc) {
    var key := doc.share + "-" + doc.id;
    key in index && index[key] == doc.names
  }

  /** Each document is in the index under its id. */
  ghost predicate HoldsAll(index: map<string, seq<string>>, docs: seq<Doc>) {
    forall i :: 0 <= i < |docs| ==> Held(index, docs[i])
  }

  lemma {:induction false} IndexKeys(docs: seq<Doc>)
    ensures IndexOf(docs).Keys == set id | id in Ids(docs)
  {
    if docs != [] {
      var n := |docs| - 1;
      IndexKeys(docs[..n]);
      IdsPrefix(docs, n);
      assert Ids(docs) == Ids(docs)[..n] + [Ids(docs)[n]];
    }
  }

  /** With distinct ids the index holds every document under its id. */
  lemma {:induction false} IndexExact(docs: seq<Doc>)
    requires Distinct(Ids(docs))
    ensures HoldsAll(IndexOf(docs), docs)
  {
    if docs != [] {
      var n := |docs| - 1;
      IdsPrefix(docs, n);
      IndexExact(docs[..n]);
      forall i | 0 <= i < |docs|
        ensures Held(IndexOf(docs), docs[i])
      {
        if i < n {
          assert Held(IndexOf(docs[..n]), docs[..n][i]);
          assert Ids(docs)[i] != Ids(docs)[n];
        }
      }
    }
  }

  /** A document is filed under the share of some row. */
  lemma OwnedShare(files: set<File>, doc: Doc, marker: Marker)
    requires Owned(files, doc, marker)
    ensures exists f :: f in files && f.share == doc.share && f.id == doc.id
  {
    var f :| f in files && DocOf(files, f, doc, marker);
    if f.isDir {
    } else if Absorbed(files, f, marker) {
      var d :| ContainerFolder(files, d, marker) && IsChild(f, d) && FolderDoc(files, d, doc, marker);
    } else if Hashed(f) {
      var rep :| Representative(rep, Copies(files, f, marker)) && FiledUnder(doc, rep);
      assert rep in files;
    }
  }

  lemma PlanIdsDistinct(files: set<File>, docs: seq<Doc>, marker: Marker)
    requires IsPlan(files, docs, marker) && NoneShadows(files)
    ensures Distinct(Ids(docs))
  {
    forall d, e | d in docs && e in docs
      ensures !Shadows(d.share, e.share)
    {
      assert Owned(files, d, marker) && Owned(files, e, marker);
      OwnedShare(files, d, marker);
      OwnedShare(files, e, marker);
    }
    IdsDistinct(docs);
  }

  /**
   A search index on disk. `writes` counts the times each id was written, `largestBatch` the
   documents held at once.
   */
  class Index {
    var docs: map<string, seq<string>>
    var writes: multiset<string>
    var largestBatch: nat

    constructor ()
      ensures docs == map[] && writes == multiset{} && largestBatch == 0
    {
      docs, writes, largestBatch := map[], multiset{}, 0;
    }

    method Batch(batch: map<string, seq<string>>, pending: nat, works: bool)
      modifies this
      ensures docs == (if works then old(docs) + batch else old(docs))
      ensures writes == (if works then old(writes) + multiset(batch.Keys) else old(writes))
      ensures largestBatch == if pending > old(largestBatch) then pending else old(largestBatch)
    {
      largestBatch := if pending > largestBatch then pending else largestBatch;
      if works {
        docs := docs + batch;
        writes := writes + multiset(batch.Keys);
      }
    }
  }

  /** Documents written so far, and those in the batch in hand, make up the first `i` of the plan. */
  ghost predicate Progressed(docs: map<string, seq<string>>, writes: multiset<string>, batch: map<string, seq<string>>,
                             plan: seq<Doc>, i: nat)
    requires i <= |plan|
  {
    && docs + batch == IndexOf(plan[..i])
    && WrittenOnce(writes, batch.Keys, Ids(plan), i)
  }

  /** Ids written and ids in hand are the first `i`, each once. */
  ghost predicate WrittenOnce(writes: multiset<string>, inHand: set<string>, ids: seq<string>, i: nat)
    requires i <= |ids|
  {
    Distinct(ids) ==> writes + multiset(inHand) == multiset(ids[..i])
  }

  lemma WrittenNext(writes: multiset<string>, inHand: set<string>, ids: seq<string>, i: nat)
    requires i < |ids| && WrittenOnce(writes, inHand, ids, i)
    ensures WrittenOnce(writes, inHand + {ids[i]}, ids, i + 1)
  {
    if Distinct(ids) {
      assert ids[..i + 1] == ids[..i] + [ids[i]];
      assert ids[i] !in ids[..i];
      assert ids[i] !in multiset(ids[..i]);
      assert ids[i] !in multiset(inHand);
      assert multiset(inHand + {ids[i]}) == multiset(inHand) + multiset{ids[i]};
    }
  }

  lemma ProgressedNext(docs: map<string, seq<string>>, writes: multiset<string>, batch: map<string, seq<string>>,
                       plan: seq<Doc>, i: nat)
    requires i < |plan| && Progressed(docs, writes, batch, plan, i)
    ensures Progressed(docs, writes, batch[DocID(plan[i].share, plan[i].id) := plan[i].names], plan, i + 1)
  {
    var id := DocID(plan[i].share, plan[i].id);
    var next := batch[id := plan[i].names];
    assert plan[..i + 1][..i] == plan[..i];
    assert docs + next == (docs + batch)[id := plan[i].names];
    assert next.Keys == batch.Keys + {Ids(plan)[i]};
    WrittenNext(writes, batch.Keys, Ids(plan), i);
  }

  lemma ProgressedFlush(docs: map<string, seq<string>>, writes: multiset<string>, batch: map<string, seq<string>>,
                        plan: seq<Doc>, i: nat)
    requires i <= |plan| && Progressed(docs, writes, batch, plan, i)
    ensures Progressed(docs + batch, writes + multiset(batch.Keys), map[], plan, i)
  {
    var none: map<string, seq<string>> := map[];
    assert docs + batch + none == docs + batch;
    assert none.Keys == {};
    assert writes + multiset(batch.Keys) + multiset(none.Keys) == writes + multiset(batch.Keys);
  }

  predicate Works(works: nat -> bool, b: nat) { works(b) }

  /** The first `n` batches are written. */
  predicate AllWork(works: nat -> bool, n: nat) {
    if n == 0 then true else AllWork(works, n - 1) && Works(works, n - 1)
  }

  lemma {:induction false} FailureStays(works: nat -> bool, m: nat, n: nat)
    requires m <= n && !AllWork(works, m)
    ensures !AllWork(works, n)
  {
    if m < n {
      FailureStays(works, m, n - 1);
    }
  }

  /** Full batches, and one more for what is left over. */
  function Batches(docs: nat, size: nat): nat
    requires size > 0
  {
    docs / size + (if docs % size == 0 then 0 else 1)
  }

  /** After `i` documents `q` full batches are out and `r` documents are in hand. */
  ghost predicate Cut(i: nat, size: nat, q: nat, r: nat) {
    r < size && i == size * q + r
  }

  /** The documents in hand after `i`. */
  function InHand(i: nat, size: nat): nat {
    if i == 0 || InHand(i - 1, size) + 1 == size then 0 else InHand(i - 1, size) + 1
  }

  /** The full batches after `i` documents. */
  function Full(i: nat, size: nat): nat {
    if i == 0 then 0 else Full(i - 1, size) + if InHand(i, size) == 0 then 1 else 0
  }

  lemma {:induction false} FullCut(i: nat, size: nat)
    requires size > 0
    ensures Cut(i, size, Full(i, size), InHand(i, size))
  {
    if i > 0 {
      FullCut(i - 1, size);
      CutNext(i - 1, size, Full(i - 1, size), InHand(i - 1, size));
    }
  }

  lemma Scaled(size: nat, a: nat, b: nat)
    ensures a < b ==> size * (a + 1) <= size * b
  {
    assert a < b ==> size * b == size * (a + 1) + size * (b - a - 1);
  }

  lemma CutNext(i: nat, size: nat, q: nat, r: nat)
    requires Cut(i, size, q, r)
    ensures if r + 1 == size then Cut(i + 1, size, q + 1, 0) else Cut(i + 1, size, q, r + 1)
  {
    assert size * (q + 1) == size * q + size;
  }

  lemma CutOrder(i: nat, n: nat, size: nat, q: nat, r: nat, q': nat, r': nat)
    requires Cut(i, size, q, r) && Cut(n, size, q', r') && i <= n
    ensures q <= q' && (i == n ==> q == q' && r == r')
  {
    Scaled(size, q', q);
    Scaled(size, q, q');
  }

  lemma CutBatches(i: nat, n: nat, size: nat)
    requires size > 0 && i <= n
    ensures Full(i, size) <= Batches(n, size)
    ensures i == n ==> Batches(n, size) == Full(i, size) + if InHand(i, size) == 0 then 0 else 1
  {
    assert Cut(n, size, n / size, n % size);
    FullCut(i, size);
    CutOrder(i, n, size, Full(i, size), InHand(i, size), n / size, n % size);
  }

  /** Writes the batch in hand. */
  method Flush(batch: map<string, seq<string>>, pending: nat, flushed: nat, index: Index, works: nat -> bool,
               ghost plan: seq<Doc>, ghost i: nat)
    returns (ok: bool)
    requires i <= |plan| && Progressed(index.docs, index.writes, batch, plan, i) && AllWork(works, flushed)
    modifies index
    ensures ok <==> AllWork(works, flushed + 1)
    ensures ok ==> Progressed(index.docs, index.writes, map[], plan, i)
    ensures index.largestBatch == if pending > old(index.largestBatch) then pending else old(index.largestBatch)
  {
    ProgressedFlush(index.docs, index.writes, batch, plan, i);
    ok := Works(works, flushed);
    index.Batch(batch, pending, ok);
  }

  lemma ProgressedNone(plan: seq<Doc>)
    ensures Progressed(map[], multiset{}, map[], plan, 0)
  {
    assert plan[..0] == [] && Ids(plan)[..0] == [];
  }

  lemma ProgressedAll(docs: map<string, seq<string>>, writes: multiset<string>, plan: seq<Doc>)
    requires Progressed(docs, writes, map[], plan, |plan|)
    ensures docs == IndexOf(plan) && (Distinct(Ids(plan)) ==> writes == multiset(Ids(plan)))
  {
    var none: map<string, seq<string>> := map[];
    assert docs + none == docs && writes + multiset(none.Keys) == writes;
    assert plan[..|plan|] == plan && Ids(plan)[..|plan|] == Ids(plan);
  }

  /** Puts document `i` in the batch, and writes the batch when it is full. */
  method Add(plan: seq<Doc>, i: nat, batch: map<string, seq<string>>, pending: nat, flushed: nat, batchSize: int,
             index: Index, works: nat -> bool)
    returns (ok: bool, batch': map<string, seq<string>>, pending': nat, flushed': nat)
    requires i < |plan| && Progressed(index.docs, index.writes, batch, plan, i) && AllWork(works, flushed)
    requires flushed == Full(i, SizeOf(batchSize)) && pending == InHand(i, SizeOf(batchSize)) < SizeOf(batchSize)
    modifies index
    ensures flushed' == Full(i + 1, SizeOf(batchSize))
    ensures pending' == InHand(i + 1, SizeOf(batchSize)) < SizeOf(batchSize)
    ensures ok <==> AllWork(works, flushed')
    ensures ok ==> Progressed(index.docs, index.writes, batch', plan, i + 1) && (pending' == 0 ==> batch' == map[])
    ensures index.largestBatch <= old(index.largestBatch) || index.largestBatch <= SizeOf(batchSize)
  {
    var d := plan[i];
    ProgressedNext(index.docs, index.writes, batch, plan, i);
    batch' := batch[d.share + "-" + d.id := d.names];
    pending', flushed', ok := pending + 1, flushed, true;
    if pending' >= batchSize {
      ok := Flush(batch', pending', flushed, index, works, plan, i + 1);
      batch', pending', flushed' := map[], 0, flushed + 1;
    }
  }

  function SizeOf(batchSize: int): (size: nat)
    ensures size > 0
  {
    if batchSize < 1 then 1 else batchSize
  }

  /** Add the planned documents in bounded batches; the `b`th is written if it works. */
  method WriteAll(plan: seq<Doc>, batchSize: int, index: Index, works: nat -> bool) returns (ok: bool)
    requires index.docs == map[] && index.writes == multiset{} && index.largestBatch == 0
    modifies index
    ensures ok <==> AllWork(works, Batches(|plan|, if batchSize < 1 then 1 else batchSize))
    ensures ok ==> index.docs == IndexOf(plan)
    ensures ok && Distinct(Ids(plan)) ==> index.writes == multiset(Ids(plan))
    ensures index.largestBatch <= if batchSize < 1 then 1 else batchSize
  {
    var batch: map<string, seq<string>>, pending: nat, flushed: nat, i: nat := map[], 0, 0, 0;
    ProgressedNone(plan);
    ok := true;
    while i < |plan| && ok
      invariant i <= |plan| && (ok <==> AllWork(works, flushed))
      invariant flushed == Full(i, SizeOf(batchSize)) && pending == InHand(i, SizeOf(batchSize)) < SizeOf(batchSize)
      invariant ok ==> Progressed(index.docs, index.writes, batch, plan, i) && (pending == 0 ==> batch == map[])
      invariant index.largestBatch <= SizeOf(batchSize)
      decreases |plan| - i
    {
      ok, batch, pending, flushed := Add(plan, i, batch, pending, flushed, batchSize, index, works);
      i := i + 1;
    }
    CutBatches(i, |plan|, SizeOf(batchSize));
    if ok {
      ok := Finish(plan, batch, pending, flushed, index, works);
    } else {
      FailureStays(works, flushed, Batches(|plan|, SizeOf(batchSize)));
    }
  }

  /** Writes what is left in hand. */
  method Finish(plan: seq<Doc>, batch: map<string, seq<string>>, pending: nat, flushed: nat, index: Index,
                works: nat -> bool)
    returns (ok: bool)
    requires Progressed(index.docs, index.writes, batch, plan, |plan|) && AllWork(works, flushed)
    requires pending == 0 ==> batch == map[]
    modifies index
    ensures ok <==> AllWork(works, flushed + if pending == 0 then 0 else 1)
    ensures ok ==> index.docs == IndexOf(plan)
    ensures ok && Distinct(Ids(plan)) ==> index.writes == multiset(Ids(plan))
    ensures index.largestBatch == if pending > old(index.largestBatch) then pending else old(index.largestBatch)
  {
    ok := true;
    if pending != 0 {
      ok := Flush(batch, pending, flushed, index, works, plan, |plan|);
    }
    if ok {
      ProgressedAll(index.docs, index.writes, plan);
    }
  }

  /**
   Rebuild the index from the rows: unless one share code shadows another it ends holding exactly
   the plan, each document written once.
   */
  method Rebuild(rows: seq<File>, marker: Marker, batchSize: int, works: nat -> bool)
    returns (ok: bool, index: Index, plan: seq<Doc>)
    requires Keyed(rows)
    ensures IsPlan(RowSet(rows), plan, marker)
    ensures ok <==> AllWork(works, Batches(|plan|, if batchSize < 1 then 1 else batchSize))
    ensures fresh(index) && index.largestBatch <= if batchSize < 1 then 1 else batchSize
    ensures ok ==> index.docs == IndexOf(plan)
    ensures ok && NoneShadows(RowSet(rows)) ==>
              && index.writes == multiset(Ids(plan))
              && index.docs.Keys == (set id | id in Ids(plan))
              && HoldsAll(index.docs, plan)
  {
    index := new Index();
    plan := PlanDocs(rows, marker);
    ok := WriteAll(plan, batchSize, index, works);
    if NoneShadows(RowSet(rows)) {
      PlanIdsDistinct(RowSet(rows), plan, marker);
      IndexKeys(plan);
      IndexExact(plan);
    }
  }
}
