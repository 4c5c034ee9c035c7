/** Strings in lexicographic order, and lists of distinct strings sorted by it. */
module Lexical {
  import opened Basics

  /** `a` comes strictly before `b`. */
  predicate Below(a: string, b: string) {
    b != [] && (a == [] || a[0] < b[0] || (a[0] == b[0] && Below(a[1..], b[1..])))
  }

  /** They are the same up to `k`, where `a` ends or has the smaller character. */
  predicate PartAt(a: string, b: string, k: nat) {
    k <= |a| && k < |b| && a[..k] == b[..k] && (k == |a| || a[k] < b[k])
  }

  /** The order of a dictionary. */
  lemma {:induction false} BelowIff(a: string, b: string)
    ensures Below(a, b) <==> exists k: nat :: PartAt(a, b, k)
  {
    if Below(a, b) {
      if a == [] || a[0] < b[0] {
        assert PartAt(a, b, 0);
      } else {
        BelowIff(a[1..], b[1..]);
        var k: nat :| PartAt(a[1..], b[1..], k);
        assert a[..k + 1] == [a[0]] + a[1..][..k] && b[..k + 1] == [b[0]] + b[1..][..k];
        assert PartAt(a, b, k + 1);
      }
    }
    if k: nat :| PartAt(a, b, k) && k > 0 {
      assert a[..k][0] == a[0] && b[..k][0] == b[0];
      assert a[1..][..k - 1] == a[..k][1..] && b[1..][..k - 1] == b[..k][1..];
      assert PartAt(a[1..], b[1..], k - 1);
      BelowIff(a[1..], b[1..]);
    }
  }

  lemma {:induction false} BelowIrreflexive(a: string)
    ensures !Below(a, a)
  {
    if a != [] {
      BelowIrreflexive(a[1..]);
    }
  }

  lemma {:induction false} BelowTransitive(a: string, b: string, c: string)
    requires Below(a, b) && Below(b, c)
    ensures Below(a, c)
  {
    if a != [] && a[0] == b[0] && b[0] == c[0] {
      BelowTransitive(a[1..], b[1..], c[1..]);
    }
  }

  lemma {:induction false} BelowTotal(a: string, b: string)
    ensures a == b || Below(a, b) || Below(b, a)
  {
    if a != [] && b != [] && a[0] == b[0] {
      BelowTotal(a[1..], b[1..]);
      assert a == [a[0]] + a[1..] && b == [b[0]] + b[1..];
    }
  }

  lemma BelowAsymmetric(a: string, b: string)
    requires Below(a, b)
    ensures a != b && !Below(b, a)
  {
    BelowIrreflexive(a);
    if Below(b, a) {
      BelowTransitive(a, b, a);
    }
  }

  predicate Sorted(xs: seq<string>) {
    forall i, j :: 0 <= i < j < |xs| ==> Below(xs[i], xs[j])
  }

  predicate Distinct<T(==)>(xs: seq<T>) {
    forall i, j :: 0 <= i < j < |xs| ==> xs[i] != xs[j]
  }

  /** `xs` lists exactly the elements of `s`, each once. */
  ghost predicate Lists<T(!new)>(xs: seq<T>, s: set<T>) {
    Distinct(xs) && forall x :: x in xs <==> x in s
  }

  /** `xs` lists the elements of `s` in order. */
  ghost predicate SortedList(xs: seq<string>, s: set<string>) {
    Sorted(xs) && forall x :: x in xs <==> x in s
  }

  lemma SortedIsDistinct(xs: seq<string>)
    requires Sorted(xs)
    ensures Distinct(xs)
  {
    forall i, j | 0 <= i < j < |xs|
      ensures xs[i] != xs[j]
    {
      BelowIrreflexive(xs[i]);
    }
  }

  /** A set of strings has one sorted list. */
  lemma {:induction false} SortedListUnique(xs: seq<string>, ys: seq<string>, s: set<string>)
    requires SortedList(xs, s) && SortedList(ys, s)
    ensures xs == ys
    decreases |xs|
  {
    SortedIsDistinct(xs);
    SortedIsDistinct(ys);
    ListSize(xs, s);
    ListSize(ys, s);
    if xs != [] {
      assert xs[0] in s;
      SameHead(xs, ys, s);
      TailSorted(xs, s);
      TailSorted(ys, s);
      SortedListUnique(xs[1..], ys[1..], s - {xs[0]});
      assert xs == [xs[0]] + xs[1..] && ys == [ys[0]] + ys[1..];
    }
  }

  lemma SameHead(xs: seq<string>, ys: seq<string>, s: set<string>)
    requires SortedList(xs, s) && SortedList(ys, s) && xs != []
    ensures ys != [] && xs[0] == ys[0]
  {
    assert xs[0] in s;
    var i :| 0 <= i < |ys| && ys[i] == xs[0];
    assert ys[0] in ys;
    var j :| 0 <= j < |xs| && xs[j] == ys[0];
    if i > 0 && j > 0 {
      BelowAsymmetric(xs[0], ys[0]);
    }
  }

  lemma TailSorted(xs: seq<string>, s: set<string>)
    requires SortedList(xs, s) && xs != []
    ensures SortedList(xs[1..], s - {xs[0]})
  {
    SortedIsDistinct(xs);
    forall x
      ensures x in xs[1..] <==> x in s - {xs[0]}
    {
      assert xs == [xs[0]] + xs[1..];
    }
  }

  // ----- sorting -----

  /** Place a new string in a sorted list. */
  function Insert(x: string, xs: seq<string>): seq<string> {
    if xs == [] then [x]
    else if Below(x, xs[0]) then [x] + xs
    else [xs[0]] + Insert(x, xs[1..])
  }

  function SortStrings(xs: seq<string>): seq<string> {
    if xs == [] then [] else Insert(xs[|xs| - 1], SortStrings(xs[..|xs| - 1]))
  }

  lemma {:induction false} InsertSorted(x: string, xs: seq<string>, s: set<string>)
    requires SortedList(xs, s) && x !in s
    ensures SortedList(Insert(x, xs), s + {x})
    decreases |xs|
  {
    if xs == [] {
    } else if Below(x, xs[0]) {
      var r := [x] + xs;
      forall i, j | 0 <= i < j < |r|
        ensures Below(r[i], r[j])
      {
        if i == 0 && j > 1 {
          BelowTransitive(x, xs[0], xs[j - 1]);
        }
      }
    } else {
      assert xs[0] in s;
      BelowTotal(x, xs[0]);
      TailSorted(xs, s);
      InsertSorted(x, xs[1..], s - {xs[0]});
      var rest := Insert(x, xs[1..]);
      var r := [xs[0]] + rest;
      forall j | 1 <= j < |r|
        ensures Below(r[0], r[j])
      {
        assert r[j] in rest;
        if r[j] != x {
          var k :| 0 <= k < |xs[1..]| && xs[1..][k] == r[j];
          assert xs[k + 1] == r[j];
        }
      }
      assert s + {x} == {xs[0]} + (s - {xs[0]} + {x});
    }
  }

  /** Sorting distinct strings. */
  lemma {:induction false} SortsDistinct(xs: seq<string>, s: set<string>)
    requires Lists(xs, s)
    ensures SortedList(SortStrings(xs), s)
    decreases |xs|
  {
    if xs != [] {
      var n := |xs| - 1;
      var last := xs[n];
      assert xs == xs[..n] + [last];
      assert Lists(xs[..n], s - {last});
      SortsDistinct(xs[..n], s - {last});
      InsertSorted(last, SortStrings(xs[..n]), s - {last});
      assert s - {last} + {last} == s by { assert last in xs; }
    }
  }

  // ----- the smallest elements of a set -----

  /** `kept` holds the `n` smallest elements of `s`, or all of them when there are no more than `n`. */
  ghost predicate Smallest(kept: set<string>, s: set<string>, n: nat) {
    && kept <= s
    && |kept| == (if |s| < n then |s| else n)
    && forall x, y :: x in kept && y in s - kept ==> Below(x, y)
  }

  lemma SmallestUnique(a: set<string>, b: set<string>, s: set<string>, n: nat)
    requires Smallest(a, s, n) && Smallest(b, s, n)
    ensures a == b
  {
    if a != b {
      SubsetHasExtra(a, b);
      SubsetHasExtra(b, a);
      var x :| x in a && x !in b;
      var y :| y in b && y !in a;
      BelowAsymmetric(x, y);
    }
  }

  lemma ProperSubsetSmaller(a: set<string>, b: set<string>)
    ensures a <= b && a != b ==> |a| < |b|
  {
    if a <= b {
      SubsetSize(a, b);
    }
  }

  lemma SubsetHasExtra(a: set<string>, b: set<string>)
    requires |a| == |b| && a != b
    ensures exists x :: x in a && x !in b
  {
    ProperSubsetSmaller(a, b);
  }

  /** The front of a sorted list holds the smallest elements. */
  lemma FrontSmallest(xs: seq<string>, s: set<string>, n: nat)
    requires SortedList(xs, s)
    ensures var m := if |xs| < n then |xs| else n;
            && Smallest((set x | x in xs[..m]), s, n)
            && SortedList(xs[..m], (set x | x in xs[..m]))
  {
    var m := if |xs| < n then |xs| else n;
    var kept := set x | x in xs[..m];
    SortedIsDistinct(xs);
    ListSize(xs, s);
    ListSize(xs[..m], kept);
    assert forall k :: 0 <= k < m ==> xs[..m][k] == xs[k] && xs[k] in kept;
    forall x, y | x in kept && y in s - kept
      ensures Below(x, y)
    {
      var i :| 0 <= i < m && xs[..m][i] == x;
      var j :| 0 <= j < |xs| && xs[j] == y;
    }
  }

  lemma {:induction false} ListSize<T(!new)>(xs: seq<T>, s: set<T>)
    requires Lists(xs, s)
    ensures |xs| == |s|
    decreases |xs|
  {
    if xs == [] {
      assert forall x :: x in s ==> x in xs;
      assert s == {};
    } else {
      var last := xs[|xs| - 1];
      assert xs == xs[..|xs| - 1] + [last];
      assert last in xs;
      ListSize(xs[..|xs| - 1], s - {last});
    }
  }
}
