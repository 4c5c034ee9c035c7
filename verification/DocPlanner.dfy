/** planDocs: one pass over the rows with maps and counters, proved to produce the plan SearchDocs asks for. */
module DocPlanner {
  import opened Basics
  import opened Lexical
  import opened SearchDocs

  type Key = (string, string)

  /** "" for movies, which merge across names. */
  datatype GroupKey = GroupKey(name: string, sha1: string, size: int)

  datatype Group = Group(rep: File, names: set<string>)

  ghost function RowSet(rows: seq<File>): set<File> {
    set f | f in rows
  }

  /** No two rows carry the same primary key. */
  ghost predicate Keyed(rows: seq<File>) {
    forall i, j :: 0 <= i < j < |rows| ==> rows[i].share != rows[j].share || rows[i].id != rows[j].id
  }

  lemma KeyedUnique(rows: seq<File>)
    requires Keyed(rows)
    ensures UniqueKeys(RowSet(rows)) && Distinct(rows)
  {
  }

  function KeyOf(f: File): Key { (f.share, f.id) }

  function ContentKey(f: File, marker: Marker): GroupKey {
    GroupKey(if IsEpisode(f, marker) then f.name else "", f.sha1, f.size)
  }

  /** The hash key groups exactly the rows of the same content. */
  lemma ContentKeyExact(f: File, g: File, marker: Marker)
    ensures ContentKey(f, marker) == ContentKey(g, marker) <==> SameContent(f, g, marker)
  {
  }

  function Bucket(m: map<Key, seq<File>>, key: Key): seq<File> {
    if key in m then m[key] else []
  }

  /** The files whose parent folder has this key. */
  ghost function FilesUnder(rows: set<File>, key: Key): set<File> {
    set f | f in rows && !f.isDir && (f.share, f.parent) == key
  }

  /** The map files every row under its parent, and nothing else. */
  ghost predicate ChildIndex(m: map<Key, seq<File>>, rows: set<File>) {
    forall key :: Lists(Bucket(m, key), FilesUnder(rows, key))
  }

  ghost function Dirs(rows: set<File>): set<File> {
    set f | f in rows && f.isDir
  }

  lemma ListsSnoc<T(!new)>(xs: seq<T>, s: set<T>, x: T)
    requires Lists(xs, s) && x !in s
    ensures Lists(xs + [x], s + {x})
  {
  }

  lemma DistinctSnoc(rows: seq<File>, i: nat)
    requires Distinct(rows) && i < |rows|
    ensures RowSet(rows[..i + 1]) == RowSet(rows[..i]) + {rows[i]}
    ensures rows[i] !in RowSet(rows[..i])
  {
    assert rows[..i + 1] == rows[..i] + [rows[i]];
  }

  lemma RowSetSnoc(rows: seq<File>, i: nat)
    requires Keyed(rows) && i < |rows|
    ensures RowSet(rows[..i + 1]) == RowSet(rows[..i]) + {rows[i]}
    ensures rows[i] !in RowSet(rows[..i])
  {
    DistinctSnoc(rows, i);
  }

  // ----- folders and their files -----

  method Partition(rows: seq<File>) returns (dirs: seq<File>, childrenOf: map<Key, seq<File>>)
    requires Keyed(rows)
    ensures Lists(dirs, Dirs(RowSet(rows)))
    ensures ChildIndex(childrenOf, RowSet(rows))
  {
    dirs, childrenOf := [], map[];
    for i := 0 to |rows|
      invariant Lists(dirs, Dirs(RowSet(rows[..i])))
      invariant ChildIndex(childrenOf, RowSet(rows[..i]))
    {
      var f := rows[i];
      ghost var before, after := RowSet(rows[..i]), RowSet(rows[..i + 1]);
      RowSetSnoc(rows, i);
      if f.isDir {
        ListsSnoc(dirs, Dirs(before), f);
        assert Dirs(after) == Dirs(before) + {f};
        assert ChildIndex(childrenOf, after) by {
          assert forall key :: FilesUnder(after, key) == FilesUnder(before, key);
        }
        dirs := dirs + [f];
      } else {
        assert Dirs(after) == Dirs(before);
        childrenOf := AddChild(childrenOf, f, before, after);
      }
    }
    assert rows[..|rows|] == rows;
  }

  function AddChild(m: map<Key, seq<File>>, f: File, ghost before: set<File>, ghost after: set<File>)
    : (m': map<Key, seq<File>>)
    requires !f.isDir && f !in before && after == before + {f}
    requires ChildIndex(m, before)
    ensures ChildIndex(m', after)
  {
    var own := (f.share, f.parent);
    var m' := m[own := Bucket(m, own) + [f]];
    assert ChildIndex(m', after) by {
      forall key
        ensures Lists(Bucket(m', key), FilesUnder(after, key))
      {
        assert Lists(Bucket(m, key), FilesUnder(before, key));
        if key == own {
          ListsSnoc(Bucket(m, own), FilesUnder(before, own), f);
          assert FilesUnder(after, own) == FilesUnder(before, own) + {f};
        } else {
          assert FilesUnder(after, key) == FilesUnder(before, key);
        }
      }
    }
    m'
  }

  ghost function Counted(s: set<File>, p: File -> bool): nat {
    |set k | k in s && p(k)|
  }

  lemma CountedSnoc(s: set<File>, x: File, p: File -> bool)
    requires x !in s
    ensures Counted(s + {x}, p) == Counted(s, p) + (if p(x) then 1 else 0)
  {
    var before, after := set k | k in s && p(k), set k | k in s + {x} && p(k);
    assert after == if p(x) then before + {x} else before;
  }

  function MarkedBy(marker: Marker): File -> bool {
    (k: File) => Marked(k, marker)
  }

  /** The counters isContainer keeps. */
  datatype Tally = Tally(markers: nat, files: nat, small: nat, large: nat)

  ghost predicate Tallies(t: Tally, s: set<File>, marker: Marker) {
    t == Tally(Counted(s, MarkedBy(marker)), |s|, Counted(s, Small), Counted(s, Large))
  }

  lemma TalliesSnoc(t: Tally, s: set<File>, k: File, marker: Marker)
    requires Tallies(t, s, marker) && k !in s
    ensures Tallies(Tally(t.markers + (if marker(k.name) then 1 else 0), t.files + 1,
                          t.small + (if Small(k) then 1 else 0), t.large + (if Large(k) then 1 else 0)),
                    s + {k}, marker)
  {
    CountedSnoc(s, k, MarkedBy(marker));
    CountedSnoc(s, k, Small);
    CountedSnoc(s, k, Large);
  }

  lemma TalliesDecide(t: Tally, s: set<File>, marker: Marker)
    requires Tallies(t, s, marker)
    ensures IsContainer(s, marker) <==> t.markers >= 5 || (t.files >= 5 && t.small * 5 >= t.files * 3 && t.large < 2)
  {
    var marked, small, large := MarkedBy(marker), Small, Large;
    assert (set k | k in s && marked(k)) == (set k | k in s && Marked(k, marker));
    assert (set k | k in s && small(k)) == (set k | k in s && Small(k));
    assert (set k | k in s && large(k)) == (set k | k in s && Large(k));
  }

  method CountsAsContainer(kids: seq<File>, marker: Marker, ghost all: set<File>) returns (container: bool)
    requires Lists(kids, all)
    ensures container <==> IsContainer(all, marker)
  {
    var markers: nat, files: nat, small: nat, large: nat := 0, 0, 0, 0;
    assert Tallies(Tally(0, 0, 0, 0), RowSet(kids[..0]), marker);
    for i := 0 to |kids|
      invariant Tallies(Tally(markers, files, small, large), RowSet(kids[..i]), marker)
    {
      var k := kids[i];
      DistinctSnoc(kids, i);
      TalliesSnoc(Tally(markers, files, small, large), RowSet(kids[..i]), k, marker);
      files := files + 1;
      if marker(k.name) {
        markers := markers + 1;
      }
      if k.size > MOVIE_SIZE_THRESHOLD {
        large := large + 1;
      } else if k.size > 0 {
        small := small + 1;
      }
    }
    assert RowSet(kids[..|kids|]) == all;
    TalliesDecide(Tally(markers, files, small, large), all, marker);
    container := markers >= 5 || (files >= 5 && small * 5 >= files * 3 && large < 2);
  }

  method FolderNames(d: File, kids: seq<File>, ghost all: set<File>) returns (names: seq<string>)
    requires Lists(kids, all)
    ensures FolderNamesOk(names, d, all)
  {
    var folderName := Spaced(d.name);
    var seen := {folderName};
    var childStems: seq<string> := [];
    for i := 0 to |kids|
      invariant seen == (set k | k in kids[..i] :: Spaced(Stem(k))) + {folderName}
      invariant Lists(childStems, seen - {folderName})
    {
      assert kids[..i + 1] == kids[..i] + [kids[i]];
      var s := Spaced(Stem(kids[i]));
      assert (set k | k in kids[..i + 1] :: Spaced(Stem(k))) == (set k | k in kids[..i] :: Spaced(Stem(k))) + {s};
      if s !in seen {
        ListsSnoc(childStems, seen - {folderName}, s);
        assert seen + {s} - {folderName} == seen - {folderName} + {s};
        seen := seen + {s};
        childStems := childStems + [s];
      }
    }
    assert kids[..|kids|] == kids;
    ghost var stems := seen - {folderName};
    assert stems == ChildStems(all, folderName);
    SortsDistinct(childStems, stems);
    var sorted := SortStrings(childStems);
    FrontSmallest(sorted, stems, MAX_FOLDER_NAMES - 1);
    var front := sorted[..if |sorted| < MAX_FOLDER_NAMES - 1 then |sorted| else MAX_FOLDER_NAMES - 1];
    ghost var kept := set x | x in front;
    SortedIsDistinct(front);
    ListsSnoc(front, kept, folderName);
    SortsDistinct(front + [folderName], kept + {folderName});
    names := SortStrings(front + [folderName]);
  }

  method Suppress(kids: seq<File>, suppressed: set<Key>) returns (more: set<Key>)
    ensures forall key :: key in more <==> key in suppressed || exists k :: k in kids && KeyOf(k) == key
  {
    more := suppressed;
    for i := 0 to |kids|
      invariant forall key :: key in more <==> key in suppressed || exists k :: k in kids[..i] && KeyOf(k) == key
    {
      assert kids[..i + 1] == kids[..i] + [kids[i]];
      more := more + {KeyOf(kids[i])};
    }
    assert kids[..|kids|] == kids;
  }

  /** `f` lies in one of the first `n` folders, and that one is a container. */
  ghost predicate AbsorbedBy(files: set<File>, f: File, dirs: seq<File>, n: nat, marker: Marker) {
    exists j :: 0 <= j < n && j < |dirs| && IsContainer(Kids(files, dirs[j]), marker) && IsChild(f, dirs[j])
  }

  /** The keys collected so far are those of the files in the first `n` folders that are containers. */
  ghost predicate SuppressedUpTo(files: set<File>, suppressed: set<Key>, dirs: seq<File>, n: nat, marker: Marker) {
    forall f :: f in files && !f.isDir ==> (KeyOf(f) in suppressed <==> AbsorbedBy(files, f, dirs, n, marker))
  }

  /** One folder's document; a container's files join the suppressed ones. */
  method FolderDocOf(dirs: seq<File>, i: nat, kids: seq<File>, suppressed: set<Key>, marker: Marker,
                     ghost files: set<File>)
    returns (doc: Doc, more: set<Key>)
    requires UniqueKeys(files) && i < |dirs|
    requires Lists(kids, Kids(files, dirs[i]))
    requires SuppressedUpTo(files, suppressed, dirs, i, marker)
    ensures FolderDoc(files, dirs[i], doc, marker)
    ensures SuppressedUpTo(files, more, dirs, i + 1, marker)
  {
    var d := dirs[i];
    var container := CountsAsContainer(kids, marker, Kids(files, d));
    var names;
    if container {
      names := FolderNames(d, kids, Kids(files, d));
      more := Suppress(kids, suppressed);
    } else {
      names := [d.name];
      more := suppressed;
    }
    doc := Doc(d.share, d.id, names);
    assert SuppressedUpTo(files, more, dirs, i + 1, marker) by {
      SuppressedStep(files, suppressed, more, dirs, i, kids, container, marker);
    }
  }

  lemma SuppressedStep(files: set<File>, suppressed: set<Key>, more: set<Key>, dirs: seq<File>, i: nat, kids: seq<File>,
                       container: bool, marker: Marker)
    requires UniqueKeys(files) && i < |dirs| && Lists(kids, Kids(files, dirs[i]))
    requires SuppressedUpTo(files, suppressed, dirs, i, marker)
    requires container <==> IsContainer(Kids(files, dirs[i]), marker)
    requires forall key :: key in more <==> key in suppressed || (container && exists k :: k in kids && KeyOf(k) == key)
    ensures SuppressedUpTo(files, more, dirs, i + 1, marker)
  {
    forall f | f in files && !f.isDir
      ensures KeyOf(f) in more <==> AbsorbedBy(files, f, dirs, i + 1, marker)
    {
      AbsorbedStep(files, f, dirs, i, marker);
      assert f in kids <==> IsChild(f, dirs[i]);
    }
  }

  method FolderDocs(dirs: seq<File>, childrenOf: map<Key, seq<File>>, marker: Marker, ghost files: set<File>)
    returns (out: seq<Doc>, suppressed: set<Key>)
    requires UniqueKeys(files) && Lists(dirs, Dirs(files))
    requires ChildIndex(childrenOf, files)
    ensures |out| == |dirs| && forall j :: 0 <= j < |dirs| ==> FolderDoc(files, dirs[j], out[j], marker)
    ensures SuppressedExactly(files, suppressed, marker)
  {
    out, suppressed := [], {};
    for i := 0 to |dirs|
      invariant |out| == i && forall j :: 0 <= j < i ==> FolderDoc(files, dirs[j], out[j], marker)
      invariant SuppressedUpTo(files, suppressed, dirs, i, marker)
    {
      var kids := Bucket(childrenOf, KeyOf(dirs[i]));
      assert Lists(kids, Kids(files, dirs[i])) by {
        assert Kids(files, dirs[i]) == FilesUnder(files, KeyOf(dirs[i]));
      }
      var doc;
      doc, suppressed := FolderDocOf(dirs, i, kids, suppressed, marker, files);
      out := out + [doc];
    }
    SuppressedByAll(files, suppressed, dirs, marker);
  }

  lemma SuppressedByAll(files: set<File>, suppressed: set<Key>, dirs: seq<File>, marker: Marker)
    requires Lists(dirs, Dirs(files)) && SuppressedUpTo(files, suppressed, dirs, |dirs|, marker)
    ensures SuppressedExactly(files, suppressed, marker)
  {
    forall f | f in files && !f.isDir
      ensures KeyOf(f) in suppressed <==> Absorbed(files, f, marker)
    {
      AbsorbedByAll(files, f, dirs, marker);
    }
  }

  ghost predicate SuppressedExactly(files: set<File>, suppressed: set<Key>, marker: Marker) {
    forall f :: f in files && !f.isDir ==> (KeyOf(f) in suppressed <==> Absorbed(files, f, marker))
  }

  lemma AbsorbedStep(files: set<File>, f: File, dirs: seq<File>, i: nat, marker: Marker)
    requires i < |dirs|
    ensures AbsorbedBy(files, f, dirs, i + 1, marker)
            <==>
            AbsorbedBy(files, f, dirs, i, marker)
            || (IsContainer(Kids(files, dirs[i]), marker) && IsChild(f, dirs[i]))
  {
  }

  lemma AbsorbedByAll(files: set<File>, f: File, dirs: seq<File>, marker: Marker)
    requires Lists(dirs, Dirs(files))
    ensures AbsorbedBy(files, f, dirs, |dirs|, marker) <==> Absorbed(files, f, marker)
  {
    if AbsorbedBy(files, f, dirs, |dirs|, marker) {
      var j :| 0 <= j < |dirs| && IsContainer(Kids(files, dirs[j]), marker) && IsChild(f, dirs[j]);
      assert dirs[j] in dirs;
      assert ContainerFolder(files, dirs[j], marker);
    }
    if Absorbed(files, f, marker) {
      var d :| ContainerFolder(files, d, marker) && IsChild(f, d);
      assert d in dirs;
    }
  }

  // ----- files on their own and files by content -----

  /** A file that is neither absorbed nor hashed has a document of its own. */
  ghost predicate Alone(files: set<File>, f: File, marker: Marker) {
    f in files && !f.isDir && !Absorbed(files, f, marker) && !Hashed(f)
  }

  ghost function AloneIn(files: set<File>, rows: set<File>, marker: Marker): set<File> {
    set f | f in rows && Alone(files, f, marker)
  }

  /** The rows of `rows` indexed by content under `key`. */
  ghost function Members(files: set<File>, rows: set<File>, key: GroupKey, marker: Marker): set<File> {
    set f | f in rows && ByContent(files, f, marker) && ContentKey(f, marker) == key
  }

  ghost predicate GroupOk(g: Group, members: set<File>) {
    Representative(g.rep, members) && g.names == set f | f in members :: Stem(f)
  }

  /** `groups` holds exactly the nonempty groups of `rows`. */
  ghost predicate GroupsOk(files: set<File>, rows: set<File>, groups: map<GroupKey, Group>, marker: Marker) {
    && (forall key :: key in groups ==> GroupOk(groups[key], Members(files, rows, key, marker)))
    && (forall f :: f in rows && ByContent(files, f, marker) ==> ContentKey(f, marker) in groups)
  }

  function Joined(g: Group, f: File): Group {
    Group(if KeyBelow(f, g.rep) then f else g.rep, g.names + {Stem(f)})
  }

  lemma JoinedOk(files: set<File>, g: Group, members: set<File>, f: File)
    requires UniqueKeys(files) && members <= files && f in files && f !in members && GroupOk(g, members)
    ensures GroupOk(Joined(g, f), members + {f})
  {
    KeyBelowTotal(f, g.rep);
    var rep := Joined(g, f).rep;
    forall h | h in members + {f} && h != rep
      ensures KeyBelow(rep, h)
    {
      if rep == f && h != g.rep {
        KeyBelowTransitive(f, g.rep, h);
      }
    }
    assert (set h | h in members + {f} :: Stem(h)) == (set h | h in members :: Stem(h)) + {Stem(f)};
  }

  lemma MembersSnoc(files: set<File>, rows: set<File>, f: File, key: GroupKey, marker: Marker)
    requires f !in rows
    ensures Members(files, rows + {f}, key, marker) ==
            Members(files, rows, key, marker)
            + (if ByContent(files, f, marker) && ContentKey(f, marker) == key then {f} else {})
  {
  }

  method AddToGroups(groups: map<GroupKey, Group>, order: seq<GroupKey>, f: File, marker: Marker,
                     ghost files: set<File>, ghost rows: set<File>)
    returns (groups': map<GroupKey, Group>, order': seq<GroupKey>)
    requires UniqueKeys(files) && rows <= files && f !in rows && ByContent(files, f, marker)
    requires GroupsOk(files, rows, groups, marker) && Lists(order, groups.Keys)
    ensures GroupsOk(files, rows + {f}, groups', marker) && Lists(order', groups'.Keys)
  {
    var key := ContentKey(f, marker);
    ghost var members := Members(files, rows, key, marker);
    MembersSnoc(files, rows, f, key, marker);
    if key in groups {
      groups', order' := groups[key := Joined(groups[key], f)], order;
      JoinedOk(files, groups[key], members, f);
      assert groups'.Keys == groups.Keys;
    } else {
      groups', order' := groups[key := Group(f, {Stem(f)})], order + [key];
      assert members == {};
      ListsSnoc(order, groups.Keys, key);
    }
    forall k | k in groups'
      ensures GroupOk(groups'[k], Members(files, rows + {f}, k, marker))
    {
      MembersSnoc(files, rows, f, k, marker);
    }
  }

  /** The second pass: documents for files on their own, groups for the rest. `owners` are the rows of the former. */
  method FileDocs(rows: seq<File>, suppressed: set<Key>, marker: Marker, ghost files: set<File>)
    returns (out: seq<Doc>, groups: map<GroupKey, Group>, order: seq<GroupKey>, ghost owners: seq<File>)
    requires Keyed(rows) && files == RowSet(rows) && SuppressedExactly(files, suppressed, marker)
    ensures |out| == |owners| && forall j :: 0 <= j < |out| ==>
            out[j] == Doc(owners[j].share, owners[j].id, [Stem(owners[j])])
    ensures Lists(owners, AloneIn(files, files, marker))
    ensures GroupsOk(files, files, groups, marker) && Lists(order, groups.Keys)
  {
    KeyedUnique(rows);
    out, groups, order, owners := [], map[], [], [];
    for i := 0 to |rows|
      invariant |out| == |owners| && forall j :: 0 <= j < |out| ==>
                out[j] == Doc(owners[j].share, owners[j].id, [Stem(owners[j])])
      invariant Lists(owners, AloneIn(files, RowSet(rows[..i]), marker))
      invariant GroupsOk(files, RowSet(rows[..i]), groups, marker) && Lists(order, groups.Keys)
    {
      var f := rows[i];
      ghost var before := RowSet(rows[..i]);
      DistinctSnoc(rows, i);
      assert f in files && before <= files;
      if f.isDir || KeyOf(f) in suppressed {
        OtherRow(files, before, f, groups, marker);
      } else if !Hashed(f) {
        OtherRow(files, before, f, groups, marker);
        ListsSnoc(owners, AloneIn(files, before, marker), f);
        assert AloneIn(files, before + {f}, marker) == AloneIn(files, before, marker) + {f};
        out, owners := out + [Doc(f.share, f.id, [Stem(f)])], owners + [f];
      } else {
        groups, order := AddToGroups(groups, order, f, marker, files, before);
        assert AloneIn(files, before + {f}, marker) == AloneIn(files, before, marker);
      }
    }
    assert rows[..|rows|] == rows;
  }

  lemma OtherRow(files: set<File>, rows: set<File>, f: File, groups: map<GroupKey, Group>, marker: Marker)
    requires GroupsOk(files, rows, groups, marker) && f !in rows && !ByContent(files, f, marker)
    ensures GroupsOk(files, rows + {f}, groups, marker)
    ensures !Alone(files, f, marker) ==>
              AloneIn(files, rows + {f}, marker) == AloneIn(files, rows, marker)
  {
    forall key | key in groups
      ensures GroupOk(groups[key], Members(files, rows + {f}, key, marker))
    {
      MembersSnoc(files, rows, f, key, marker);
    }
  }

  method NamesOf(names: set<string>) returns (sorted: seq<string>)
    ensures SortedList(sorted, names)
  {
    var listed: seq<string>, rest := [], names;
    while rest != {}
      invariant rest <= names && Lists(listed, names - rest)
      decreases rest
    {
      var n :| n in rest;
      ListsSnoc(listed, names - rest, n);
      assert names - (rest - {n}) == names - rest + {n};
      listed, rest := listed + [n], rest - {n};
    }
    assert names - {} == names;
    SortsDistinct(listed, names);
    sorted := SortStrings(listed);
  }

  method GroupDocs(groups: map<GroupKey, Group>, order: seq<GroupKey>) returns (out: seq<Doc>)
    requires Lists(order, groups.Keys)
    ensures |out| == |order|
    ensures forall j :: 0 <= j < |order| ==> order[j] in groups && MergedDoc(groups[order[j]], out[j])
  {
    assert forall j :: 0 <= j < |order| ==> order[j] in order;
    out := [];
    for i := 0 to |order|
      invariant |out| == i
      invariant forall j :: 0 <= j < i ==> MergedDoc(groups[order[j]], out[j])
    {
      var g := groups[order[i]];
      var names := NamesOf(g.names);
      out := out + [Doc(g.rep.share, g.rep.id, names)];
    }
  }

  // ----- the whole plan -----

  lemma CopiesAreMembers(files: set<File>, f: File, marker: Marker)
    ensures Copies(files, f, marker) == Members(files, files, ContentKey(f, marker), marker)
  {
    forall g
      ensures SameContent(f, g, marker) <==> ContentKey(g, marker) == ContentKey(f, marker)
    {
      ContentKeyExact(f, g, marker);
    }
  }

  /** The documents of the three kinds, with the rows and groups they come from. */
  datatype Pieces = Pieces(dirs: seq<File>, folders: seq<Doc>, owners: seq<File>, singles: seq<Doc>,
                           order: seq<GroupKey>, groups: map<GroupKey, Group>, merged: seq<Doc>)
  {
    function Docs(): seq<Doc> {
      folders + singles + merged
    }
  }

  ghost predicate PiecesOk(files: set<File>, p: Pieces, marker: Marker) {
    match p
    case Pieces(dirs, folders, owners, singles, order, groups, merged) =>
      && UniqueKeys(files)
      && Lists(dirs, Dirs(files)) && |folders| == |dirs|
      && (forall j :: 0 <= j < |dirs| ==> FolderDoc(files, dirs[j], folders[j], marker))
      && Lists(owners, AloneIn(files, files, marker)) && |singles| == |owners|
      && (forall j :: 0 <= j < |owners| ==> singles[j] == Doc(owners[j].share, owners[j].id, [Stem(owners[j])]))
      && GroupsOk(files, files, groups, marker) && Lists(order, groups.Keys) && |merged| == |order|
      && (forall j :: 0 <= j < |order| ==> order[j] in groups && MergedDoc(groups[order[j]], merged[j]))
  }

  ghost predicate MergedDoc(g: Group, doc: Doc) {
    FiledUnder(doc, g.rep) && SortedList(doc.names, g.names)
  }

  lemma FolderFound(files: set<File>, p: Pieces, d: File, marker: Marker) returns (doc: Doc)
    requires PiecesOk(files, p, marker) && d in files && d.isDir
    ensures doc in p.Docs() && FolderDoc(files, d, doc, marker)
  {
    assert d in p.dirs;
    var j :| 0 <= j < |p.dirs| && p.dirs[j] == d;
    doc := p.folders[j];
  }

  lemma GroupFound(files: set<File>, p: Pieces, f: File, marker: Marker) returns (doc: Doc)
    requires PiecesOk(files, p, marker) && ByContent(files, f, marker)
    ensures doc in p.Docs() && ContentDoc(Copies(files, f, marker), doc)
  {
    var key := ContentKey(f, marker);
    assert key in p.order;
    var j :| 0 <= j < |p.order| && p.order[j] == key;
    doc := p.merged[j];
    CopiesAreMembers(files, f, marker);
    assert GroupOk(p.groups[key], Members(files, files, key, marker));
  }

  /** Every row is found. */
  lemma PiecesFind(files: set<File>, p: Pieces, f: File, marker: Marker)
    requires PiecesOk(files, p, marker) && f in files
    ensures Found(files, f, p.Docs(), marker)
  {
    if f.isDir {
      var doc := FolderFound(files, p, f, marker);
      assert DocOf(files, f, doc, marker);
    } else if Absorbed(files, f, marker) {
      var d :| ContainerFolder(files, d, marker) && IsChild(f, d);
      var doc := FolderFound(files, p, d, marker);
      assert DocOf(files, f, doc, marker);
    } else if !Hashed(f) {
      assert f in p.owners;
      var j :| 0 <= j < |p.owners| && p.owners[j] == f;
      assert p.singles[j] in p.Docs() && DocOf(files, f, p.singles[j], marker);
    } else {
      var doc := GroupFound(files, p, f, marker);
      assert DocOf(files, f, doc, marker);
    }
  }

  /** The row document `i` is filed under. */
  ghost function OwnerAt(p: Pieces, i: nat): File
    requires i < |p.dirs| + |p.owners| + |p.order|
    requires forall j :: 0 <= j < |p.order| ==> p.order[j] in p.groups
  {
    if i < |p.dirs| then p.dirs[i]
    else if i < |p.dirs| + |p.owners| then p.owners[i - |p.dirs|]
    else p.groups[p.order[i - |p.dirs| - |p.owners|]].rep
  }

  /** A document is that of the row it is filed under. */
  lemma OwnerOwns(files: set<File>, p: Pieces, i: nat, marker: Marker)
    requires PiecesOk(files, p, marker) && i < |p.Docs()|
    ensures var f := OwnerAt(p, i);
            f in files && FiledUnder(p.Docs()[i], f) && DocOf(files, f, p.Docs()[i], marker)
    ensures i < |p.dirs| <==> OwnerAt(p, i).isDir
    ensures |p.dirs| <= i < |p.dirs| + |p.owners| ==> Alone(files, OwnerAt(p, i), marker)
    ensures |p.dirs| + |p.owners| <= i ==>
              ByContent(files, OwnerAt(p, i), marker)
                  && ContentKey(OwnerAt(p, i), marker) == p.order[i - |p.dirs| - |p.owners|]
  {
    if i < |p.dirs| {
      assert p.dirs[i] in p.dirs;
    } else if i < |p.dirs| + |p.owners| {
      assert p.owners[i - |p.dirs|] in p.owners;
    } else {
      var j := i - |p.dirs| - |p.owners|;
      var g := p.groups[p.order[j]];
      assert GroupOk(g, Members(files, files, p.order[j], marker));
      CopiesAreMembers(files, g.rep, marker);
      assert ContentDoc(Copies(files, g.rep, marker), p.merged[j]);
    }
  }

  /** No two documents are filed under one row. */
  lemma OwnersDiffer(files: set<File>, p: Pieces, i: nat, j: nat, marker: Marker)
    requires PiecesOk(files, p, marker) && i < j < |p.Docs()|
    ensures p.Docs()[i].share != p.Docs()[j].share || p.Docs()[i].id != p.Docs()[j].id
  {
    OwnerOwns(files, p, i, marker);
    OwnerOwns(files, p, j, marker);
    assert OwnerAt(p, i) != OwnerAt(p, j);
  }

  lemma PiecesPlan(files: set<File>, p: Pieces, marker: Marker)
    requires PiecesOk(files, p, marker)
    ensures IsPlan(files, p.Docs(), marker)
  {
    forall f | f in files ensures Found(files, f, p.Docs(), marker) {
      PiecesFind(files, p, f, marker);
    }
    forall doc | doc in p.Docs() ensures Owned(files, doc, marker) {
      var i :| 0 <= i < |p.Docs()| && p.Docs()[i] == doc;
      OwnerOwns(files, p, i, marker);
    }
    forall i, j | 0 <= i < j < |p.Docs()|
      ensures p.Docs()[i].share != p.Docs()[j].share || p.Docs()[i].id != p.Docs()[j].id
    {
      OwnersDiffer(files, p, i, j, marker);
    }
  }

  /** The planner's documents are the plan of its rows; by PlanUnique the order of the rows does not matter. */
  method PlanDocs(rows: seq<File>, marker: Marker) returns (out: seq<Doc>)
    requires Keyed(rows)
    ensures IsPlan(RowSet(rows), out, marker)
  {
    KeyedUnique(rows);
    ghost var files := RowSet(rows);
    var dirs, childrenOf := Partition(rows);
    var folders, suppressed := FolderDocs(dirs, childrenOf, marker, files);
    var singles, groups, order;
    ghost var owners;
    singles, groups, order, owners := FileDocs(rows, suppressed, marker, files);
    var merged := GroupDocs(groups, order);
    PiecesPlan(files, Pieces(dirs, folders, owners, singles, order, groups, merged), marker);
    out := folders + singles + merged;
  }

  /** Reading the rows in another order never changes the documents. */
  lemma OrderIndependent(rows: seq<File>, permuted: seq<File>, a: seq<Doc>, b: seq<Doc>, marker: Marker)
    requires Keyed(rows) && multiset(rows) == multiset(permuted)
    requires IsPlan(RowSet(rows), a, marker) && IsPlan(RowSet(permuted), b, marker)
    ensures DocSet(a) == DocSet(b) && |a| == |b|
  {
    PermutedKeyed(rows, permuted);
    KeyedUnique(rows);
    PlanUnique(RowSet(rows), a, b, marker);
  }

  lemma PermutedKeyed(rows: seq<File>, permuted: seq<File>)
    requires Keyed(rows) && multiset(rows) == multiset(permuted)
    ensures Keyed(permuted) && RowSet(permuted) == RowSet(rows)
  {
    forall f
      ensures f in rows <==> f in permuted
    {
      assert f in multiset(rows) <==> f in multiset(permuted);
    }
    KeyedUnique(rows);
    forall i, j | 0 <= i < j < |permuted|
      ensures permuted[i].share != permuted[j].share || permuted[i].id != permuted[j].id
    {
      OnceEach(rows, permuted[i]);
      if permuted[i] == permuted[j] {
        TwiceCounted(permuted, i, j);
        assert false;
      }
      assert permuted[i] in rows && permuted[j] in rows;
    }
  }

  lemma {:induction false} OnceEach(rows: seq<File>, f: File)
    requires Distinct(rows)
    ensures multiset(rows)[f] <= 1
  {
    if rows != [] {
      var n := |rows| - 1;
      OnceEach(rows[..n], f);
      assert rows == rows[..n] + [rows[n]];
      assert rows[n] !in rows[..n];
    }
  }

  lemma TwiceCounted(rows: seq<File>, i: nat, j: nat)
    requires i < j < |rows| && rows[i] == rows[j]
    ensures multiset(rows)[rows[i]] >= 2
  {
    assert rows == rows[..j] + rows[j..];
    assert rows[..j][i] == rows[i] && rows[j..][0] == rows[j];
    assert multiset(rows) == multiset(rows[..j]) + multiset(rows[j..]);
    assert rows[i] in multiset(rows[..j]) && rows[i] in multiset(rows[j..]);
  }
}
