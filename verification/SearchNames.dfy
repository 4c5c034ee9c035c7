/** What a plan lets a search find: the names of its documents, told from the rows' columns alone. */
module SearchNames {
  import opened Lexical
  import opened SearchDocs

  // ----- the name of a row -----

  predicate EndsIn(name: string, ext: string) {
    |name| > |ext| && name[|name| - |ext| - 1] == '.' && name[|name| - |ext|..] == ext
  }

  /** A file is found by what stands before its extension; a folder, or a file with no extension there, by its name. */
  predicate ShownAs(f: File, b: string) {
    if !f.isDir && f.ext != "" && EndsIn(f.name, f.ext) then f.name == b + "." + f.ext else b == f.name
  }

  lemma EndsInIff(name: string, ext: string)
    ensures EndsIn(name, ext) <==> exists b: string :: name == b + "." + ext
  {
    if EndsIn(name, ext) {
      var n := |name| - |ext| - 1;
      assert name == name[..n] + [name[n]] + name[n + 1..];
      assert name == name[..n] + "." + ext;
    }
  }

  lemma ShownIsStem(f: File, b: string)
    ensures ShownAs(f, b) <==> b == Stem(f)
  {
    if !f.isDir && f.ext != "" {
      var n := |f.name| - |f.ext| - 1;
      if EndsIn(f.name, f.ext) {
        assert f.name[n..] == "." + f.ext;
        assert f.name == f.name[..n] + f.name[n..];
        assert f.name == f.name[..n] + "." + f.ext;
        if f.name == b + "." + f.ext {
          assert (b + "." + f.ext)[..|b|] == b;
        }
      } else if n >= 0 {
        assert f.name[n..][0] == f.name[n] && f.name[n..][1..] == f.name[n + 1..];
        assert ("." + f.ext)[0] == '.' && ("." + f.ext)[1..] == f.ext;
      }
    }
  }

  /** `t` is `s` with a space for each dot. */
  predicate Undotted(s: string, t: string) {
    |t| == |s| && forall i :: 0 <= i < |s| ==> t[i] == if s[i] == '.' then ' ' else s[i]
  }

  lemma UndottedIsSpaced(s: string, t: string)
    ensures Undotted(s, t) <==> t == Spaced(s)
    ensures '.' !in Spaced(s)
  {
  }

  // ----- containers -----

  /** The rule of isContainer, with 10 GiB in bytes. */
  ghost predicate ManyEpisodes(kids: set<File>, marker: Marker) {
    || |set k | k in kids && marker(k.name)| >= 5
    || (&& |kids| >= 5
        && |set k | k in kids && 0 < k.size <= 10_737_418_240| * 5 >= |kids| * 3
        && |set k | k in kids && k.size > 10_737_418_240| <= 1)
  }

  lemma ContainerIff(kids: set<File>, marker: Marker)
    ensures IsContainer(kids, marker) <==> ManyEpisodes(kids, marker)
  {
    assert (set k | k in kids && Marked(k, marker)) == (set k | k in kids && marker(k.name));
    assert (set k | k in kids && Small(k)) == (set k | k in kids && 0 < k.size <= 10_737_418_240);
    assert (set k | k in kids && Large(k)) == (set k | k in kids && k.size > 10_737_418_240);
  }

  ghost function Inside(files: set<File>, d: File): set<File> {
    set k | k in files && !k.isDir && k.share == d.share && k.parent == d.id
  }

  /** A folder with many episodes stands for the files in it. */
  ghost predicate RolledUp(files: set<File>, f: File, marker: Marker) {
    exists d :: d in files && d.isDir && f in Inside(files, d) && ManyEpisodes(Inside(files, d), marker)
  }

  lemma RolledUpIff(files: set<File>, f: File, marker: Marker)
    requires f in files
    ensures RolledUp(files, f, marker) <==> Absorbed(files, f, marker)
  {
    forall d: File
      ensures Inside(files, d) == Kids(files, d)
      ensures IsContainer(Kids(files, d), marker) <==> ManyEpisodes(Kids(files, d), marker)
    {
      ContainerIff(Kids(files, d), marker);
    }
    if RolledUp(files, f, marker) {
      var d :| d in files && d.isDir && f in Inside(files, d) && ManyEpisodes(Inside(files, d), marker);
      assert ContainerFolder(files, d, marker) && IsChild(f, d);
    }
    if Absorbed(files, f, marker) {
      var d :| ContainerFolder(files, d, marker) && IsChild(f, d);
      assert f in Inside(files, d);
    }
  }

  // ----- documents -----

  /** The document in which `f` is found. */
  lemma FoundIn(files: set<File>, docs: seq<Doc>, f: File, marker: Marker) returns (doc: Doc)
    requires IsPlan(files, docs, marker) && f in files
    ensures doc in docs && DocOf(files, f, doc, marker)
  {
    assert Found(files, f, docs, marker);
    doc :| doc in docs && DocOf(files, f, doc, marker);
  }

  /** A file without a usable hash, outside containers, has a document of its own, by its own name. */
  lemma LoneFile(files: set<File>, docs: seq<Doc>, f: File, marker: Marker) returns (doc: Doc)
    requires IsPlan(files, docs, marker) && f in files && !f.isDir && !RolledUp(files, f, marker)
    requires f.sha1 == "" || f.sha1 == "DA39A3EE5E6B4B0D3255BFEF95601890AFD80709"
    ensures doc in docs && doc.share == f.share && doc.id == f.id
    ensures |doc.names| == 1 && ShownAs(f, doc.names[0])
  {
    RolledUpIff(files, f, marker);
    doc := FoundIn(files, docs, f, marker);
    ShownIsStem(f, Stem(f));
  }

  /** A folder that is no container has a document by its whole name. */
  lemma PlainFolder(files: set<File>, docs: seq<Doc>, d: File, marker: Marker) returns (doc: Doc)
    requires IsPlan(files, docs, marker) && d in files && d.isDir && !ManyEpisodes(Inside(files, d), marker)
    ensures doc in docs && doc == Doc(d.share, d.id, [d.name])
  {
    assert Inside(files, d) == Kids(files, d);
    ContainerIff(Kids(files, d), marker);
    doc := FoundIn(files, docs, d, marker);
  }

  /** `t` is the undotted name of a file in `kids`, and not `own`. */
  ghost predicate ChildName(kids: set<File>, own: string, t: string) {
    t != own && exists k, b :: k in kids && ShownAs(k, b) && Undotted(b, t)
  }

  ghost function ChildNames(kids: set<File>, own: string): set<string> {
    set t | t in ChildStems(kids, own) && ChildName(kids, own, t)
  }

  lemma ChildNamesAll(kids: set<File>, own: string)
    ensures ChildNames(kids, own) == ChildStems(kids, own)
    ensures forall t :: t in ChildNames(kids, own) <==> ChildName(kids, own, t)
  {
    forall t
      ensures ChildName(kids, own, t) <==> t in ChildStems(kids, own)
    {
      if ChildName(kids, own, t) {
        var k, b :| k in kids && ShownAs(k, b) && Undotted(b, t);
        ShownIsStem(k, b);
        UndottedIsSpaced(b, t);
      }
      if t in ChildStems(kids, own) {
        var k :| k in kids && Spaced(Stem(k)) == t;
        ShownIsStem(k, Stem(k));
        UndottedIsSpaced(Stem(k), t);
      }
    }
  }

  /** Those of `s` that come before `x`. */
  ghost function Under(s: set<string>, x: string): set<string> {
    set y | y in s && Below(y, x)
  }

  /** The `n` smallest are those with fewer than `n` before them. */
  lemma SmallestRank(kept: set<string>, s: set<string>, n: nat, x: string)
    requires Smallest(kept, s, n) && x in s
    ensures x in kept <==> |Under(s, x)| < n
  {
    BelowIrreflexive(x);
    if x in kept {
      forall y | y in Under(s, x)
        ensures y in kept
      {
        if y !in kept {
          BelowAsymmetric(x, y);
        }
      }
      SmallerInside(Under(s, x), kept, x);
    } else {
      assert kept <= Under(s, x);
      SubsetCard(kept, Under(s, x));
      SmallerInside(kept, s, x);
    }
  }

  lemma SubsetCard(a: set<string>, b: set<string>)
    requires a <= b
    ensures |a| <= |b|
  {
    if a != b {
      ProperSubsetSmaller(a, b);
    }
  }

  lemma SmallerInside(a: set<string>, b: set<string>, x: string)
    requires a <= b && x in b && x !in a
    ensures |a| < |b|
  {
    ProperSubsetSmaller(a, b);
  }

  /** The undotted own name of the folder, and those of its files with fewer than 255 others before them. */
  ghost predicate ContainerNamed(names: seq<string>, kids: set<File>, own: string) {
    && Sorted(names)
    && forall t :: t in names
                   <==> t == own || (ChildName(kids, own, t) && |Under(ChildNames(kids, own), t)| < 255)
  }

  lemma FolderNamesTold(names: seq<string>, d: File, kids: set<File>)
    requires FolderNamesOk(names, d, kids)
    ensures ContainerNamed(names, kids, Spaced(d.name))
  {
    var own := Spaced(d.name);
    ChildNamesAll(kids, own);
    var kept :| Smallest(kept, ChildNames(kids, own), 255) && SortedList(names, kept + {own});
    forall t | ChildName(kids, own, t)
      ensures t in kept <==> |Under(ChildNames(kids, own), t)| < 255
    {
      SmallestRank(kept, ChildNames(kids, own), 255, t);
    }
    forall t
      ensures t in names <==> t == own || (ChildName(kids, own, t) && |Under(ChildNames(kids, own), t)| < 255)
    {
      assert t in kept ==> ChildName(kids, own, t);
    }
  }

  /** A container has a document by its own undotted name and its files'. */
  lemma ContainerNames(files: set<File>, docs: seq<Doc>, d: File, marker: Marker) returns (doc: Doc, own: string)
    requires IsPlan(files, docs, marker) && d in files && d.isDir && ManyEpisodes(Inside(files, d), marker)
    ensures doc in docs && doc.share == d.share && doc.id == d.id
    ensures Undotted(d.name, own) && ContainerNamed(doc.names, Inside(files, d), own)
    ensures forall t :: t in ChildNames(Inside(files, d), own) <==> ChildName(Inside(files, d), own, t)
  {
    assert Inside(files, d) == Kids(files, d);
    ContainerIff(Kids(files, d), marker);
    own := Spaced(d.name);
    UndottedIsSpaced(d.name, own);
    ChildNamesAll(Kids(files, d), own);
    doc := FoundIn(files, docs, d, marker);
    FolderNamesTold(doc.names, d, Kids(files, d));
  }

  /** `f` is among the files found by content. */
  ghost predicate HasContent(files: set<File>, f: File, marker: Marker) {
    && f in files && !f.isDir && !RolledUp(files, f, marker)
    && f.sha1 != "" && f.sha1 != "DA39A3EE5E6B4B0D3255BFEF95601890AFD80709"
  }

  /** Equal content, and the same name unless it is a movie: large, and named like no episode. */
  predicate OneContent(f: File, g: File, marker: Marker) {
    f.sha1 == g.sha1 && f.size == g.size
    && (f.name == g.name || (f.size > 10_737_418_240 && !marker(f.name) && !marker(g.name)))
  }

  ghost predicate Copy(files: set<File>, f: File, g: File, marker: Marker) {
    HasContent(files, g, marker) && OneContent(f, g, marker)
  }

  lemma CopiesTold(files: set<File>, f: File, g: File, marker: Marker)
    ensures g in Copies(files, f, marker) <==> Copy(files, f, g, marker)
  {
    if g in files {
      RolledUpIff(files, g, marker);
    }
  }

  lemma NamesTold(copies: set<File>, doc: Doc, b: string)
    requires ContentDoc(copies, doc)
    ensures b in doc.names <==> exists g :: g in copies && ShownAs(g, b)
  {
    forall g: File
      ensures ShownAs(g, b) <==> b == Stem(g)
    {
      ShownIsStem(g, b);
    }
    assert b in doc.names <==> b in set g | g in copies :: Stem(g);
  }

  /**
   A file with a usable hash, outside containers, has a document by the names of all files of its
   content, and no others; it is filed under the first of them by share code and id.
   */
  lemma ContentNames(files: set<File>, docs: seq<Doc>, f: File, marker: Marker) returns (doc: Doc, rep: File)
    requires IsPlan(files, docs, marker) && HasContent(files, f, marker)
    ensures doc in docs && doc.share == rep.share && doc.id == rep.id && Sorted(doc.names)
    ensures Copy(files, f, rep, marker)
    ensures forall g :: Copy(files, f, g, marker) && g != rep ==>
              Below(rep.share, g.share) || (rep.share == g.share && Below(rep.id, g.id))
    ensures forall b :: b in doc.names <==> exists g :: Copy(files, f, g, marker) && ShownAs(g, b)
  {
    RolledUpIff(files, f, marker);
    doc := FoundIn(files, docs, f, marker);
    var copies := Copies(files, f, marker);
    assert ContentDoc(copies, doc);
    rep :| Representative(rep, copies) && FiledUnder(doc, rep);
    forall g
      ensures g in copies <==> Copy(files, f, g, marker)
    {
      CopiesTold(files, f, g, marker);
    }
    forall b
      ensures b in doc.names <==> exists g :: Copy(files, f, g, marker) && ShownAs(g, b)
    {
      NamesTold(copies, doc, b);
    }
  }

  /** Two files have one document exactly when they are of one content. */
  lemma SharedDocIff(files: set<File>, f: File, g: File, a: Doc, b: Doc, marker: Marker)
    requires UniqueKeys(files) && HasContent(files, f, marker) && HasContent(files, g, marker)
    requires DocOf(files, f, a, marker) && DocOf(files, g, b, marker)
    ensures a == b <==> OneContent(f, g, marker)
  {
    RolledUpIff(files, f, marker);
    RolledUpIff(files, g, marker);
    SharedDocIffSameContent(files, f, g, a, b, marker);
  }
}
