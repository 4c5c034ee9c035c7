/**
 Which search documents the `file` table calls for, told without order: a partition of
 the rows. Nothing here depends on the order in which rows are read.
 */
module SearchDocs {
  import opened Basics
  import opened Lexical

  datatype File = File(id: string, share: string, parent: string, name: string, ext: string, size: int, isDir: bool,
                       sha1: string)

  /** A document: the row it is filed under, and the names it is found by. */
  datatype Doc = Doc(share: string, id: string, names: seq<string>)

  /** The episode-marker pattern. It demands some text, so the empty name never matches. */
  type Marker = m: string -> bool | !m("") witness (s: string) => false

  const EMPTY_STRING_HASH := "DA39A3EE5E6B4B0D3255BFEF95601890AFD80709"
  const MOVIE_SIZE_THRESHOLD: int := 10 * 1024 * 1024 * 1024
  const MAX_FOLDER_NAMES: nat := 256

  function TrimSuffix(s: string, suffix: string): string {
    if |suffix| <= |s| && s[|s| - |suffix|..] == suffix then s[..|s| - |suffix|] else s
  }

  function Stem(f: File): string {
    if !f.isDir && f.ext != "" then TrimSuffix(f.name, "." + f.ext) else f.name
  }

  /** Dots turned into spaces, so that each segment is a token of its own. */
  function Spaced(s: string): string {
    seq(|s|, i requires 0 <= i < |s| => if s[i] == '.' then ' ' else s[i])
  }

  predicate IsEpisode(f: File, marker: Marker) {
    marker(f.name) || f.size <= MOVIE_SIZE_THRESHOLD
  }

  predicate Hashed(f: File) {
    f.sha1 != "" && f.sha1 != EMPTY_STRING_HASH
  }

  /** The primary key of the table. */
  ghost predicate UniqueKeys(files: set<File>) {
    forall f, g :: f in files && g in files && f.share == g.share && f.id == g.id ==> f == g
  }

  // ----- folders -----

  predicate IsChild(k: File, d: File) {
    !k.isDir && k.share == d.share && k.parent == d.id
  }

  /** The files directly in folder `d`. */
  ghost function Kids(files: set<File>, d: File): set<File> {
    set k | k in files && IsChild(k, d)
  }

  predicate Marked(k: File, marker: Marker) { marker(k.name) }

  predicate Large(k: File) { k.size > MOVIE_SIZE_THRESHOLD }

  predicate Small(k: File) { 0 < k.size <= MOVIE_SIZE_THRESHOLD }

  /** At least five marked files; or at least five files, at least 60% of them small and at most one large. */
  ghost predicate IsContainer(kids: set<File>, marker: Marker) {
    || |set k | k in kids && Marked(k, marker)| >= 5
    || (&& |kids| >= 5
        && |set k | k in kids && Small(k)| * 5 >= |kids| * 3
        && |set k | k in kids && Large(k)| < 2)
  }

  ghost function ChildStems(kids: set<File>, folderName: string): set<string> {
    (set k | k in kids :: Spaced(Stem(k))) - {folderName}
  }

  /** The folder's own name and its 255 smallest other child stems, in order. */
  ghost predicate FolderNamesOk(names: seq<string>, d: File, kids: set<File>) {
    exists kept: set<string> ::
      && Smallest(kept, ChildStems(kids, Spaced(d.name)), MAX_FOLDER_NAMES - 1)
      && SortedList(names, kept + {Spaced(d.name)})
  }

  ghost predicate ContainerFolder(files: set<File>, d: File, marker: Marker) {
    d in files && d.isDir && IsContainer(Kids(files, d), marker)
  }

  /** `f` lies directly in a container folder, which stands for it. */
  ghost predicate Absorbed(files: set<File>, f: File, marker: Marker) {
    exists d :: ContainerFolder(files, d, marker) && IsChild(f, d)
  }

  // ----- files of equal content -----

  /** A file indexed by its content. */
  ghost predicate ByContent(files: set<File>, f: File, marker: Marker) {
    f in files && !f.isDir && Hashed(f) && !Absorbed(files, f, marker)
  }

  /** Same hash and size, and either the same name or neither an episode. */
  predicate SameContent(f: File, g: File, marker: Marker) {
    f.sha1 == g.sha1 && f.size == g.size && (f.name == g.name || (!IsEpisode(f, marker) && !IsEpisode(g, marker)))
  }

  ghost function Copies(files: set<File>, f: File, marker: Marker): set<File> {
    set g | g in files && ByContent(files, g, marker) && SameContent(f, g, marker)
  }

  /** Order of rows by (share code, file id). */
  predicate KeyBelow(f: File, g: File) {
    Below(f.share, g.share) || (f.share == g.share && Below(f.id, g.id))
  }

  ghost predicate Representative(rep: File, group: set<File>) {
    rep in group && forall g :: g in group && g != rep ==> KeyBelow(rep, g)
  }

  // ----- the document of a row -----

  predicate FiledUnder(doc: Doc, f: File) {
    doc.share == f.share && doc.id == f.id
  }

  ghost predicate FolderDoc(files: set<File>, d: File, doc: Doc, marker: Marker) {
    match doc
    case Doc(share, id, names) =>
      && share == d.share && id == d.id
      && if IsContainer(Kids(files, d), marker) then FolderNamesOk(names, d, Kids(files, d)) else names == [d.name]
  }

  ghost predicate ContentDoc(group: set<File>, doc: Doc) {
    match doc
    case Doc(_, _, names) =>
      && (exists rep :: Representative(rep, group) && FiledUnder(doc, rep))
      && SortedList(names, set g | g in group :: Stem(g))
  }

  /** `doc` is the document in which row `f` is found. */
  ghost predicate DocOf(files: set<File>, f: File, doc: Doc, marker: Marker) {
    if f.isDir then FolderDoc(files, f, doc, marker)
    else if Absorbed(files, f, marker) then
      exists d :: ContainerFolder(files, d, marker) && IsChild(f, d) && FolderDoc(files, d, doc, marker)
    else if !Hashed(f) then FiledUnder(doc, f) && doc.names == [Stem(f)]
    else ContentDoc(Copies(files, f, marker), doc)
  }

  ghost predicate Found(files: set<File>, f: File, docs: seq<Doc>, marker: Marker) {
    exists doc :: doc in docs && DocOf(files, f, doc, marker)
  }

  ghost predicate Owned(files: set<File>, doc: Doc, marker: Marker) {
    exists f :: f in files && DocOf(files, f, doc, marker)
  }

  ghost predicate KeysDistinct(docs: seq<Doc>) {
    forall i, j :: 0 <= i < j < |docs| ==> docs[i].share != docs[j].share || docs[i].id != docs[j].id
  }

  /** Every row is found in a document, every document is some row's, and no two are filed under one key. */
  ghost predicate IsPlan(files: set<File>, docs: seq<Doc>, marker: Marker) {
    && (forall f :: f in files ==> Found(files, f, docs, marker))
    && (forall doc :: doc in docs ==> Owned(files, doc, marker))
    && KeysDistinct(docs)
  }

  // ----- the partition -----

  lemma KeyBelowAsymmetric(f: File, g: File)
    requires KeyBelow(f, g)
    ensures !KeyBelow(g, f) && f != g
  {
    if Below(f.share, g.share) {
      BelowAsymmetric(f.share, g.share);
    } else {
      BelowAsymmetric(f.id, g.id);
      BelowIrreflexive(f.share);
    }
  }

  lemma KeyBelowTransitive(f: File, g: File, h: File)
    requires KeyBelow(f, g) && KeyBelow(g, h)
    ensures KeyBelow(f, h)
  {
    if Below(f.share, g.share) && Below(g.share, h.share) {
      BelowTransitive(f.share, g.share, h.share);
    } else if f.share == g.share && g.share == h.share {
      BelowIrreflexive(f.share);
      BelowTransitive(f.id, g.id, h.id);
    }
  }

  lemma KeyBelowTotal(f: File, g: File)
    ensures (f.share == g.share && f.id == g.id) || KeyBelow(f, g) || KeyBelow(g, f)
  {
    BelowTotal(f.share, g.share);
    BelowTotal(f.id, g.id);
  }

  lemma FolderDocUnique(files: set<File>, d: File, a: Doc, b: Doc, marker: Marker)
    requires FolderDoc(files, d, a, marker) && FolderDoc(files, d, b, marker)
    ensures a == b
  {
    if IsContainer(Kids(files, d), marker) {
      var stems, own := ChildStems(Kids(files, d), Spaced(d.name)), Spaced(d.name);
      var x :| Smallest(x, stems, MAX_FOLDER_NAMES - 1) && SortedList(a.names, x + {own});
      var y :| Smallest(y, stems, MAX_FOLDER_NAMES - 1) && SortedList(b.names, y + {own});
      SmallestUnique(x, y, stems, MAX_FOLDER_NAMES - 1);
      SortedListUnique(a.names, b.names, x + {own});
    }
  }

  lemma ContentDocUnique(group: set<File>, a: Doc, b: Doc)
    requires ContentDoc(group, a) && ContentDoc(group, b)
    ensures a == b
  {
    var x :| Representative(x, group) && FiledUnder(a, x);
    var y :| Representative(y, group) && FiledUnder(b, y);
    if x != y {
      KeyBelowAsymmetric(x, y);
    }
    SortedListUnique(a.names, b.names, set g | g in group :: Stem(g));
  }

  /** A row belongs to one document. */
  lemma DocOfUnique(files: set<File>, f: File, a: Doc, b: Doc, marker: Marker)
    requires UniqueKeys(files) && f in files && DocOf(files, f, a, marker) && DocOf(files, f, b, marker)
    ensures a == b
  {
    if f.isDir {
      FolderDocUnique(files, f, a, b, marker);
    } else if Absorbed(files, f, marker) {
      var d :| ContainerFolder(files, d, marker) && IsChild(f, d) && FolderDoc(files, d, a, marker);
      var e :| ContainerFolder(files, e, marker) && IsChild(f, e) && FolderDoc(files, e, b, marker);
      assert d == e;
      FolderDocUnique(files, d, a, b, marker);
    } else if Hashed(f) {
      ContentDocUnique(Copies(files, f, marker), a, b);
    }
  }

  lemma SameContentTransitive(f: File, g: File, h: File, marker: Marker)
    requires SameContent(f, g, marker) && SameContent(g, h, marker)
    ensures SameContent(f, h, marker) && SameContent(g, f, marker)
  {
  }

  lemma CopiesOfCopy(files: set<File>, f: File, g: File, marker: Marker)
    requires SameContent(f, g, marker)
    ensures Copies(files, f, marker) == Copies(files, g, marker)
  {
    forall h
      ensures SameContent(f, h, marker) <==> SameContent(g, h, marker)
    {
    }
  }

  /**
   Two rows indexed by content are found in one document exactly when hash and size agree and either
   the names are equal or neither is an episode.
   */
  lemma SharedDocIffSameContent(files: set<File>, f: File, g: File, a: Doc, b: Doc, marker: Marker)
    requires UniqueKeys(files) && ByContent(files, f, marker) && ByContent(files, g, marker)
    requires DocOf(files, f, a, marker) && DocOf(files, g, b, marker)
    ensures a == b <==> SameContent(f, g, marker)
  {
    if SameContent(f, g, marker) {
      CopiesOfCopy(files, f, g, marker);
      ContentDocUnique(Copies(files, f, marker), a, b);
    }
    if a == b {
      var x :| Representative(x, Copies(files, f, marker)) && FiledUnder(a, x);
      var y :| Representative(y, Copies(files, g, marker)) && FiledUnder(b, y);
      assert x == y;
      SameContentTransitive(f, x, g, marker);
    }
  }

  ghost function DocSet(docs: seq<Doc>): set<Doc> {
    set doc | doc in docs
  }

  lemma DistinctKeysSize(docs: seq<Doc>)
    requires KeysDistinct(docs)
    ensures |docs| == |DocSet(docs)|
  {
    ListSize(docs, DocSet(docs));
  }

  /** Two plans for the same rows hold the same documents, whatever order the rows were read in. */
  lemma PlanUnique(files: set<File>, a: seq<Doc>, b: seq<Doc>, marker: Marker)
    requires UniqueKeys(files) && IsPlan(files, a, marker) && IsPlan(files, b, marker)
    ensures DocSet(a) == DocSet(b) && |a| == |b|
  {
    assert DocSet(a) <= DocSet(b) by { PlanWithin(files, a, b, marker); }
    assert DocSet(b) <= DocSet(a) by { PlanWithin(files, b, a, marker); }
    MutualSubset(DocSet(a), DocSet(b));
    assert |a| == |DocSet(a)| by { DistinctKeysSize(a); }
    assert |b| == |DocSet(b)| by { DistinctKeysSize(b); }
  }

  lemma PlanWithin(files: set<File>, a: seq<Doc>, b: seq<Doc>, marker: Marker)
    requires UniqueKeys(files) && IsPlan(files, a, marker) && IsPlan(files, b, marker)
    ensures forall doc :: doc in a ==> doc in b
  {
    forall doc | doc in a
      ensures doc in b
    {
      assert Owned(files, doc, marker);
      var f :| f in files && DocOf(files, f, doc, marker);
      FoundOnce(files, f, doc, b, marker);
    }
  }

  lemma FoundOnce(files: set<File>, f: File, doc: Doc, docs: seq<Doc>, marker: Marker)
    requires UniqueKeys(files) && f in files && DocOf(files, f, doc, marker) && Found(files, f, docs, marker)
    ensures doc in docs
  {
    var other :| other in docs && DocOf(files, f, other, marker);
    DocOfUnique(files, f, doc, other, marker);
  }
}
