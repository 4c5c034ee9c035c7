/**
 What the crawler sees of one 115 share. A share is an immutable snapshot, so the
 paged listing API is a finite table: a directory id and an offset give a page.
 */
module Snapshots {
  import opened Basics

  type Cid = string

  const ROOT_CID: Cid := "0"

  type PageSize = n: nat | 0 < n witness 1

  datatype Node = Node(id: string, name: string, ext: string, size: int, isDir: bool, sha1: string, updatedAt: int)

  datatype Page = Page(nodes: seq<Node>, hasMore: bool, shareTitle: string, fileSize: int)

  /**
   `counts` is the entry count 115 reports for a directory, `lists` the entries it
   returns at an offset; both answer "nothing" for what they do not mention.
   `media` is the media-extension test, of which nothing is assumed.
   */
  datatype Remote = Remote(
    counts: map<Cid, nat>,
    lists: map<(Cid, nat), seq<Node>>,
    shareTitle: string,
    fileSize: int,
    pageSize: PageSize,
    media: string -> bool)
  {
    function Count(cid: Cid): nat {
      if cid in counts then counts[cid] else 0
    }

    function Nodes(cid: Cid, offset: nat): seq<Node> {
      if (cid, offset) in lists then lists[(cid, offset)] else []
    }

    /** One successful answer of the lister. */
    function PageAt(cid: Cid, offset: nat): Page {
      Page(Nodes(cid, offset), offset + pageSize < Count(cid), shareTitle, fileSize)
    }

    /** The offsets at which a directory has a page: the first, and each one its predecessor announces. */
    predicate PageOffset(cid: Cid, offset: nat)
      decreases offset
    {
      offset == 0 || (pageSize <= offset < Count(cid) && PageOffset(cid, offset - pageSize))
    }

    predicate Indexable(node: Node) {
      node.isDir || media(node.ext)
    }

    /** Every directory id the snapshot mentions. */
    ghost function Mentioned(): set<Cid> {
      set key, i | key in lists && 0 <= i < |lists[key]| && lists[key][i].isDir :: lists[key][i].id
    }
  }

  /** Directory `c` is an entry of some page of directory `p`. */
  ghost predicate Child(r: Remote, p: Cid, c: Cid) {
    exists offset: nat :: r.PageOffset(p, offset) && c in DirIds(r.Nodes(p, offset))
  }

  function DirIds(nodes: seq<Node>): set<Cid> {
    set i | 0 <= i < |nodes| && nodes[i].isDir :: nodes[i].id
  }

  /** There is a path of at most `n` links from the root to `c`. */
  ghost predicate Within(r: Remote, c: Cid, n: nat)
    decreases n
  {
    if n == 0 then c == ROOT_CID
    else Within(r, c, n - 1) || exists p :: Within(r, p, n - 1) && Child(r, p, c)
  }

  ghost predicate Reachable(r: Remote, c: Cid) {
    exists n: nat :: Within(r, c, n)
  }

  /** The shortest path from the root to `c` has `n` links. */
  ghost predicate Distance(r: Remote, c: Cid, n: nat) {
    Within(r, c, n) && (n > 0 ==> !Within(r, c, n - 1))
  }

  lemma {:induction false} WithinMonotone(r: Remote, c: Cid, m: nat, n: nat)
    requires m <= n && Within(r, c, m)
    ensures Within(r, c, n)
    decreases n - m
  {
    if m < n {
      assert Within(r, c, m + 1);
      WithinMonotone(r, c, m + 1, n);
    }
  }

  /** Page offsets of one directory are at least a page apart. */
  lemma {:induction false} PageOffsetsApart(r: Remote, cid: Cid, a: nat, b: nat)
    requires r.PageOffset(cid, a) && r.PageOffset(cid, b) && a < b
    ensures a + r.pageSize <= b
    decreases b
  {
    if a != 0 {
      PageOffsetsApart(r, cid, a - r.pageSize, b - r.pageSize);
    }
  }
}
