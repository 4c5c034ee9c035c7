/** Making share titles unique: store/dedupe.go. */
module Titles {
  import opened Basics
  import opened Shares

  // ----- trimming -----

  /** Unicode white space. */
  predicate IsSpace(c: char) {
    c in {' ', '\t', '\n', '\r', '\U{000B}', '\U{000C}', '\U{0085}', '\U{00A0}', '\U{1680}',
          '\U{2028}', '\U{2029}', '\U{202F}', '\U{205F}', '\U{3000}'}
    || '\U{2000}' <= c <= '\U{200A}'
  }

  /** By code point. */
  lemma SpaceCodes(c: char)
    ensures var n := c as int;
            IsSpace(c) <==> 9 <= n <= 13 || n == 32 || n == 133 || n == 160 || n == 5760 || 8192 <= n <= 8202
                            || n == 8232 || n == 8233 || n == 8239 || n == 8287 || n == 12288
  {
  }

  function TrimLeft(s: string): string {
    if s != [] && IsSpace(s[0]) then TrimLeft(s[1..]) else s
  }

  function TrimRight(s: string): string {
    if s != [] && IsSpace(s[|s| - 1]) then TrimRight(s[..|s| - 1]) else s
  }

  function Trim(s: string): string {
    TrimRight(TrimLeft(s))
  }

  /** Neither end is white space. */
  predicate Tight(s: string) {
    s != [] && !IsSpace(s[0]) && !IsSpace(s[|s| - 1])
  }

  lemma {:induction false} TrimLeftTight(s: string)
    ensures TrimLeft(s) == [] || !IsSpace(TrimLeft(s)[0])
  {
    if s != [] && IsSpace(s[0]) {
      TrimLeftTight(s[1..]);
    }
  }

  lemma {:induction false} TrimRightTight(s: string)
    ensures TrimRight(s) <= s
    ensures TrimRight(s) == [] || !IsSpace(TrimRight(s)[|TrimRight(s)| - 1])
  {
    if s != [] && IsSpace(s[|s| - 1]) {
      TrimRightTight(s[..|s| - 1]);
    }
  }

  lemma TrimTight(s: string)
    ensures Trim(s) == [] || Tight(Trim(s))
  {
    TrimLeftTight(s);
    TrimRightTight(TrimLeft(s));
  }

  predicate Blank(s: string) {
    forall i :: 0 <= i < |s| ==> IsSpace(s[i])
  }

  /** `t` is what is left of `s` without the white space at either end. */
  ghost predicate TrimmedAs(s: string, t: string) {
    (t == [] || Tight(t)) && exists left, right :: Blank(left) && Blank(right) && s == left + t + right
  }

  lemma {:induction false} TrimLeftParts(s: string) returns (left: string)
    ensures Blank(left) && s == left + TrimLeft(s)
  {
    left := [];
    if s != [] && IsSpace(s[0]) {
      var rest := TrimLeftParts(s[1..]);
      left := [s[0]] + rest;
    }
  }

  lemma {:induction false} TrimRightParts(s: string) returns (right: string)
    ensures Blank(right) && s == TrimRight(s) + right
  {
    right := [];
    if s != [] && IsSpace(s[|s| - 1]) {
      var rest := TrimRightParts(s[..|s| - 1]);
      right := rest + [s[|s| - 1]];
    }
  }

  lemma {:induction false} TrimLeftDrops(left: string, s: string)
    requires Blank(left)
    ensures TrimLeft(left + s) == TrimLeft(s)
  {
    if left == [] {
      assert left + s == s;
    } else {
      assert (left + s)[1..] == left[1..] + s;
      TrimLeftDrops(left[1..], s);
    }
  }

  lemma {:induction false} TrimRightDrops(s: string, right: string)
    requires Blank(right)
    ensures TrimRight(s + right) == TrimRight(s)
  {
    if right == [] {
      assert s + right == s;
    } else {
      var n := |right| - 1;
      assert (s + right)[..|s| + n] == s + right[..n];
      TrimRightDrops(s, right[..n]);
    }
  }

  lemma TrimmedIff(s: string, t: string)
    ensures TrimmedAs(s, t) <==> t == Trim(s)
  {
    TrimTight(s);
    var left := TrimLeftParts(s);
    var right := TrimRightParts(TrimLeft(s));
    assert s == left + Trim(s) + right;
    if TrimmedAs(s, t) {
      var l, r :| Blank(l) && Blank(r) && s == l + t + r;
      TrimOf(l, t, r);
    }
  }

  lemma TrimOf(left: string, t: string, right: string)
    requires Blank(left) && Blank(right) && (t == [] || Tight(t))
    ensures Trim(left + t + right) == t
  {
    assert left + t + right == left + (t + right);
    TrimLeftDrops(left, t + right);
    if t == [] {
      assert t + right == right && right == right + [];
      TrimLeftDrops(right, []);
    } else {
      assert (t + right)[0] == t[0];
      TrimRightDrops(t, right);
    }
  }

  // ----- numbered candidates -----

  function Digit(d: nat): char
    requires d < 10
  {
    '0' + (d as char)
  }

  function Itoa(n: nat): string {
    if n < 10 then [Digit(n)] else Itoa(n / 10) + [Digit(n % 10)]
  }

  lemma {:induction false} ItoaInjective(m: nat, n: nat)
    requires Itoa(m) == Itoa(n)
    ensures m == n
  {
    assert Itoa(m)[|Itoa(m)| - 1] == Digit(m % 10);
    assert Itoa(n)[|Itoa(n)| - 1] == Digit(n % 10);
    if m >= 10 && n >= 10 {
      assert Itoa(m)[..|Itoa(m)| - 1] == Itoa(m / 10);
      assert Itoa(n)[..|Itoa(n)| - 1] == Itoa(n / 10);
      ItoaInjective(m / 10, n / 10);
    } else {
      ItoaLength(m);
      ItoaLength(n);
    }
  }

  lemma ItoaLength(n: nat)
    ensures |Itoa(n)| >= 1 && (|Itoa(n)| == 1 <==> n < 10)
  {
    if n >= 10 {
      assert |Itoa(n / 10)| >= 1;
    }
  }

  /** The number a string of digits stands for. */
  function ValueOf(digits: string): int {
    if digits == [] then 0 else 10 * ValueOf(digits[..|digits| - 1]) + (digits[|digits| - 1] as int - '0' as int)
  }

  /** `digits` is `n` in decimal, without leading zeros. */
  predicate Decimal(n: nat, digits: string) {
    && digits != [] && (digits[0] == '0' ==> digits == "0")
    && (forall i :: 0 <= i < |digits| ==> '0' <= digits[i] <= '9')
    && ValueOf(digits) == n
  }

  lemma {:induction false} ItoaDecimal(n: nat)
    ensures Decimal(n, Itoa(n))
  {
    if n >= 10 {
      ItoaDecimal(n / 10);
      var front := Itoa(n / 10);
      assert Itoa(n)[..|front|] == front && Itoa(n)[|front|] == Digit(n % 10);
      assert ValueOf("0") == 10 * ValueOf([]) + 0;
      assert forall i :: 0 <= i < |front| ==> Itoa(n)[i] == front[i];
    }
  }

  function Candidate(base: string, n: nat): string {
    base + Itoa(n)
  }

  lemma CandidateInjective(base: string, m: nat, n: nat)
    requires Candidate(base, m) == Candidate(base, n)
    ensures m == n
  {
    assert Candidate(base, m)[|base|..] == Itoa(m) && Candidate(base, n)[|base|..] == Itoa(n);
    ItoaInjective(m, n);
  }

  /** A numbered title is already trimmed. */
  lemma CandidateTight(base: string, n: nat)
    requires Tight(base)
    ensures Trim(Candidate(base, n)) == Candidate(base, n) && Candidate(base, n) != []
  {
    var s := Candidate(base, n);
    assert s[0] == base[0];
    assert s[|s| - 1] == Itoa(n)[|Itoa(n)| - 1] == Digit(n % 10);
  }

  ghost function Candidates(base: string, n: nat): set<string> {
    set m | 1 <= m < n :: Candidate(base, m)
  }

  lemma {:induction false} CandidatesSize(base: string, n: nat)
    requires n >= 1
    ensures |Candidates(base, n)| == n - 1
  {
    if n == 1 {
      assert Candidates(base, 1) == {};
    } else {
      CandidatesSize(base, n - 1);
      assert Candidates(base, n) == Candidates(base, n - 1) + {Candidate(base, n - 1)};
      forall m | 1 <= m < n - 1
        ensures Candidate(base, m) != Candidate(base, n - 1)
      {
        if Candidate(base, m) == Candidate(base, n - 1) {
          CandidateInjective(base, m, n - 1);
          assert false;
        }
      }
    }
  }

  /** Numbers whose candidates are all taken are no more than the titles in use. */
  lemma Pigeonhole(base: string, used: set<string>, n: nat)
    requires n >= 1 && Candidates(base, n) <= used
    ensures n <= |used| + 1
  {
    CandidatesSize(base, n);
    SubsetSize(Candidates(base, n), used);
  }

  // ----- the plan -----

  datatype Rename = Rename(code: string, from: string, to: string)

  function TitleOf(shares: seq<Share>, i: nat): string
    requires i < |shares|
  {
    Trim(shares[i].title)
  }

  ghost function TitlesUpTo(shares: seq<Share>, n: nat): set<string>
    requires n <= |shares|
  {
    set i | 0 <= i < n :: TitleOf(shares, i)
  }

  ghost function TitlesUsed(shares: seq<Share>): set<string> {
    TitlesUpTo(shares, |shares|)
  }

  /** A share whose nonblank title an earlier share has. */
  ghost predicate Repeats(shares: seq<Share>, i: nat)
    requires i < |shares|
  {
    TitleOf(shares, i) != "" && exists j :: 0 <= j < i && TitleOf(shares, j) == TitleOf(shares, i)
  }

  /** The titles of the first `n` shares, in order of first appearance. */
  function Bases(shares: seq<Share>, n: nat): seq<string>
    requires n <= |shares|
  {
    if n == 0 then []
    else
      var before := Bases(shares, n - 1);
      var t := TitleOf(shares, n - 1);
      if t == "" || t in before then before else before + [t]
  }

  /** Those of the first `n` shares that have title `t`. */
  function Where(shares: seq<Share>, t: string, n: nat): seq<nat>
    requires n <= |shares|
  {
    if n == 0 then []
    else Where(shares, t, n - 1) + (if TitleOf(shares, n - 1) == t then [n - 1] else [])
  }

  /** The shares to rename, group by group: all but the first of each group. */
  function Turns(shares: seq<Share>, bases: seq<string>): seq<nat> {
    if bases == [] then []
    else
      Turns(shares, bases[..|bases| - 1]) + GroupTurns(shares, bases[|bases| - 1])
  }

  function GroupTurns(shares: seq<Share>, t: string): seq<nat> {
    var members := Where(shares, t, |shares|);
    if |members| <= 1 then [] else members[1..]
  }

  function AllTurns(shares: seq<Share>): seq<nat> {
    Turns(shares, Bases(shares, |shares|))
  }

  lemma {:induction false} WhereHolds(shares: seq<Share>, t: string, n: nat)
    requires n <= |shares|
    ensures forall k :: 0 <= k < |Where(shares, t, n)| ==>
              Where(shares, t, n)[k] < n && TitleOf(shares, Where(shares, t, n)[k]) == t
    ensures forall k, l :: 0 <= k < l < |Where(shares, t, n)| ==> Where(shares, t, n)[k] < Where(shares, t, n)[l]
    ensures forall i :: 0 <= i < n && TitleOf(shares, i) == t ==> i in Where(shares, t, n)
  {
    if n > 0 {
      WhereHolds(shares, t, n - 1);
    }
  }

  lemma {:induction false} BasesHold(shares: seq<Share>, n: nat)
    requires n <= |shares|
    ensures forall t :: t in Bases(shares, n) <==> t != "" && exists i :: 0 <= i < n && TitleOf(shares, i) == t
    ensures forall k, l :: 0 <= k < l < |Bases(shares, n)| ==> Bases(shares, n)[k] != Bases(shares, n)[l]
  {
    if n > 0 {
      BasesHold(shares, n - 1);
      forall t
        ensures t in Bases(shares, n) <==> t != "" && exists i :: 0 <= i < n && TitleOf(shares, i) == t
      {
        assert TitleOf(shares, n - 1) == t ==> exists i :: 0 <= i < n && TitleOf(shares, i) == t;
      }
    }
  }

  /** Past the first of its group. */
  lemma PastFirst(shares: seq<Share>, t: string, i: nat)
    requires i < |shares| && t != ""
    ensures var members := Where(shares, t, |shares|);
            (TitleOf(shares, i) == t && Repeats(shares, i)) <==> |members| > 1 && i in members[1..]
  {
    var members := Where(shares, t, |shares|);
    WhereHolds(shares, t, |shares|);
    if TitleOf(shares, i) == t && Repeats(shares, i) {
      var j :| 0 <= j < i && TitleOf(shares, j) == t;
      var k :| 0 <= k < |members| && members[k] == i;
      var l :| 0 <= l < |members| && members[l] == j;
      assert members[1..][k - 1] == i;
    }
    if |members| > 1 && i in members[1..] {
      var k :| 0 <= k < |members[1..]| && members[1..][k] == i;
      assert members[k + 1] == i && members[0] < i;
    }
  }

  lemma {:induction false} TurnsHold(shares: seq<Share>, bases: seq<string>)
    requires forall t :: t in bases ==> t != ""
    requires forall k, l :: 0 <= k < l < |bases| ==> bases[k] != bases[l]
    ensures forall i: nat ::
              i in Turns(shares, bases) <==> i < |shares| && TitleOf(shares, i) in bases && Repeats(shares, i)
    ensures forall k, l :: 0 <= k < l < |Turns(shares, bases)| ==> Turns(shares, bases)[k] != Turns(shares, bases)[l]
  {
    if bases != [] {
      var n := |bases| - 1;
      var last := bases[n];
      var front, added := Turns(shares, bases[..n]), GroupTurns(shares, last);
      assert bases == bases[..n] + [last];
      assert forall t :: t in bases <==> t in bases[..n] || t == last;
      assert last in bases && last !in bases[..n];
      TurnsHold(shares, bases[..n]);
      GroupTurnsHold(shares, last);
      assert Turns(shares, bases) == front + added;
      DistinctJoin(front, added);
    }
  }

  /** One group's turns are those of its shares that repeat its title. */
  lemma GroupTurnsHold(shares: seq<Share>, t: string)
    requires t != ""
    ensures forall i: nat ::
              i in GroupTurns(shares, t) <==> i < |shares| && TitleOf(shares, i) == t && Repeats(shares, i)
    ensures forall k, l :: 0 <= k < l < |GroupTurns(shares, t)| ==> GroupTurns(shares, t)[k] != GroupTurns(shares, t)[l]
  {
    var members := Where(shares, t, |shares|);
    WhereHolds(shares, t, |shares|);
    assert forall i :: i in GroupTurns(shares, t) ==> i in members;
    assert forall i :: i in members ==> i < |shares|;
    forall i: nat
      ensures i in GroupTurns(shares, t) <==> i < |shares| && TitleOf(shares, i) == t && Repeats(shares, i)
    {
      if i < |shares| {
        PastFirst(shares, t, i);
      }
    }
  }

  /** The shares renamed are exactly those repeating an earlier title, each once. */
  lemma TurnsAreRepeats(shares: seq<Share>)
    ensures forall i: nat :: i in AllTurns(shares) <==> i < |shares| && Repeats(shares, i)
    ensures forall k, l :: 0 <= k < l < |AllTurns(shares)| ==> AllTurns(shares)[k] != AllTurns(shares)[l]
  {
    BasesHold(shares, |shares|);
    TurnsHold(shares, Bases(shares, |shares|));
  }

  /** Titles taken when the `k`th rename is chosen. */
  ghost function UsedAt(shares: seq<Share>, renames: seq<Rename>, k: nat): set<string>
    requires k <= |renames|
  {
    TitlesUsed(shares) + set j | 0 <= j < k :: renames[j].to
  }

  /** `to` is `base` with the smallest number that makes it new. */
  ghost predicate SmallestFree(base: string, to: string, used: set<string>) {
    exists n: nat :: n >= 1 && to == Candidate(base, n) && to !in used && Candidates(base, n) <= used
  }

  ghost predicate RenameOk(shares: seq<Share>, renames: seq<Rename>, k: nat, i: nat)
    requires k < |renames|
  {
    match renames[k]
    case Rename(code, from, to) =>
      && i < |shares|
      && code == shares[i].code && from == shares[i].title
      && SmallestFree(TitleOf(shares, i), to, UsedAt(shares, renames, k))
  }

  /** Renames for `turns`, in order, each to the smallest free number at its turn. */
  ghost predicate Renames(shares: seq<Share>, renames: seq<Rename>, turns: seq<nat>) {
    && |renames| == |turns|
    && forall k :: 0 <= k < |turns| ==> RenameOk(shares, renames, k, turns[k])
  }

  lemma RenamesSnoc(shares: seq<Share>, renames: seq<Rename>, turns: seq<nat>, rename: Rename, i: nat)
    requires Renames(shares, renames, turns) && i < |shares|
    requires rename.code == shares[i].code && rename.from == shares[i].title
    requires SmallestFree(TitleOf(shares, i), rename.to, UsedAt(shares, renames, |renames|))
    ensures Renames(shares, renames + [rename], turns + [i])
    ensures UsedAt(shares, renames + [rename], |renames| + 1) == UsedAt(shares, renames, |renames|) + {rename.to}
  {
    var longer := renames + [rename];
    forall k | 0 <= k <= |renames|
      ensures UsedAt(shares, longer, k) == UsedAt(shares, renames, k)
    {
      assert forall j :: 0 <= j < k ==> longer[j] == renames[j];
    }
    var n := |renames|;
    assert (set j | 0 <= j < n + 1 :: longer[j].to) == (set j | 0 <= j < n :: longer[j].to) + {longer[n].to};
    forall k | 0 <= k < |turns + [i]|
      ensures RenameOk(shares, longer, k, (turns + [i])[k])
    {
      if k < |turns| {
        assert RenameOk(shares, renames, k, turns[k]);
      }
    }
  }

  /** The first number not taken. The search ends because the titles in use are finitely many. */
  method FreeCandidate(base: string, used: set<string>) returns (candidate: string)
    ensures SmallestFree(base, candidate, used)
  {
    var n := 1;
    while true
      invariant n >= 1 && Candidates(base, n) <= used
      decreases |used| + 1 - n
    {
      Pigeonhole(base, used, n);
      candidate := Candidate(base, n);
      if candidate !in used {
        return;
      }
      n := n + 1;
      Pigeonhole(base, used, n);
    }
  }

  /** The groups and their order after the first `n` shares. */
  ghost predicate Grouped(shares: seq<Share>, groups: map<string, seq<nat>>, order: seq<string>, n: nat)
    requires n <= |shares|
  {
    && order == Bases(shares, n)
    && (forall t :: t in order <==> t in groups)
    && (forall t :: t in groups ==> t != "" && groups[t] == Where(shares, t, n))
  }

  lemma GroupedBlank(shares: seq<Share>, groups: map<string, seq<nat>>, order: seq<string>, n: nat)
    requires n < |shares| && Grouped(shares, groups, order, n) && TitleOf(shares, n) == ""
    ensures Grouped(shares, groups, order, n + 1)
  {
    forall t | t in groups
      ensures groups[t] == Where(shares, t, n + 1)
    {
      assert Where(shares, t, n) + [] == Where(shares, t, n);
    }
  }

  /** Another share of a title seen before. */
  lemma GroupedAgain(shares: seq<Share>, groups: map<string, seq<nat>>, order: seq<string>, n: nat)
    requires n < |shares| && Grouped(shares, groups, order, n) && TitleOf(shares, n) in groups
    ensures var t := TitleOf(shares, n); Grouped(shares, groups[t := groups[t] + [n]], order, n + 1)
  {
    var t := TitleOf(shares, n);
    assert Bases(shares, n + 1) == Bases(shares, n);
    var groups' := groups[t := groups[t] + [n]];
    assert groups'.Keys == groups.Keys;
    forall u | u in groups'
      ensures groups'[u] == Where(shares, u, n + 1)
    {
      assert u in groups;
      WhereNext(shares, u, n);
    }
  }

  /** The first share of a title. */
  lemma GroupedFirst(shares: seq<Share>, groups: map<string, seq<nat>>, order: seq<string>, n: nat)
    requires n < |shares| && Grouped(shares, groups, order, n)
    requires TitleOf(shares, n) != "" && TitleOf(shares, n) !in groups
    ensures var t := TitleOf(shares, n); Grouped(shares, groups[t := [n]], order + [t], n + 1)
  {
    var t := TitleOf(shares, n);
    assert t !in order;
    NotYet(shares, t, n);
    WhereNext(shares, t, n);
    forall u | u in groups
      ensures groups[u] == Where(shares, u, n + 1)
    {
      WhereNext(shares, u, n);
    }
  }

  lemma WhereNext(shares: seq<Share>, t: string, n: nat)
    requires n < |shares|
    ensures Where(shares, t, n + 1)
            == if TitleOf(shares, n) == t then Where(shares, t, n) + [n] else Where(shares, t, n)
  {
  }

  method GroupByTitle(shares: seq<Share>) returns (groups: map<string, seq<nat>>, order: seq<string>)
    ensures Grouped(shares, groups, order, |shares|)
  {
    groups, order := map[], [];
    for i := 0 to |shares|
      invariant Grouped(shares, groups, order, i)
    {
      var t := Trim(shares[i].title);
      if t == "" {
        GroupedBlank(shares, groups, order, i);
      } else {
        if t in groups {
          GroupedAgain(shares, groups, order, i);
        } else {
          GroupedFirst(shares, groups, order, i);
          groups, order := groups[t := []], order + [t];
        }
        groups := groups[t := groups[t] + [i]];
      }
    }
  }

  lemma {:induction false} NotYet(shares: seq<Share>, t: string, n: nat)
    requires n <= |shares| && t != "" && t !in Bases(shares, n)
    ensures Where(shares, t, n) == []
  {
    if n > 0 {
      NotYet(shares, t, n - 1);
    }
  }

  lemma TurnsNext(shares: seq<Share>, order: seq<string>, g: nat)
    requires g < |order|
    ensures Turns(shares, order[..g + 1]) == Turns(shares, order[..g]) + GroupTurns(shares, order[g])
  {
    assert order[..g + 1][..g] == order[..g];
  }

  lemma RestHolds(shares: seq<Share>, base: string)
    requires |Where(shares, base, |shares|)| > 1
    ensures forall k :: 0 <= k < |GroupTurns(shares, base)| ==>
              GroupTurns(shares, base)[k] < |shares| && TitleOf(shares, GroupTurns(shares, base)[k]) == base
  {
    WhereHolds(shares, base, |shares|);
  }

  /** One rename for each share repeating an earlier title, in the order of groups and then of ids. */
  method PlanShareRenames(shares: seq<Share>) returns (renames: seq<Rename>)
    ensures Renames(shares, renames, AllTurns(shares))
  {
    var used: set<string> := {};
    for i := 0 to |shares|
      invariant used == TitlesUpTo(shares, i)
    {
      assert TitlesUpTo(shares, i + 1) == TitlesUpTo(shares, i) + {TitleOf(shares, i)};
      used := used + {Trim(shares[i].title)};
    }
    var groups, order := GroupByTitle(shares);
    renames := [];
    assert UsedAt(shares, renames, 0) == used;
    for g := 0 to |order|
      invariant Renames(shares, renames, Turns(shares, order[..g]))
      invariant used == UsedAt(shares, renames, |renames|)
    {
      var base := order[g];
      var members := groups[base];
      ghost var turns := Turns(shares, order[..g]);
      TurnsNext(shares, order, g);
      if |members| > 1 {
        RestHolds(shares, base);
        renames, used := RenameGroup(shares, base, members[1..], renames, used, turns);
      } else {
        assert turns + [] == turns;
      }
    }
    assert order[..|order|] == order;
  }

  /** Rename the shares of one group after its first. */
  method RenameGroup(shares: seq<Share>, base: string, rest: seq<nat>, renames: seq<Rename>, used: set<string>,
                     ghost turns: seq<nat>)
    returns (longer: seq<Rename>, used': set<string>)
    requires forall k :: 0 <= k < |rest| ==> rest[k] < |shares| && TitleOf(shares, rest[k]) == base
    requires Renames(shares, renames, turns) && used == UsedAt(shares, renames, |renames|)
    ensures Renames(shares, longer, turns + rest) && used' == UsedAt(shares, longer, |longer|)
  {
    longer, used' := renames, used;
    ghost var done := turns;
    for k := 0 to |rest|
      invariant done == turns + rest[..k]
      invariant Renames(shares, longer, done)
      invariant used' == UsedAt(shares, longer, |longer|)
    {
      longer, used' := RenameOne(shares, rest[k], base, longer, used', done);
      assert rest[..k + 1] == rest[..k] + [rest[k]];
      done := done + [rest[k]];
    }
    assert rest[..|rest|] == rest;
  }

  method RenameOne(shares: seq<Share>, i: nat, base: string, renames: seq<Rename>, used: set<string>,
                   ghost turns: seq<nat>)
    returns (longer: seq<Rename>, used': set<string>)
    requires i < |shares| && TitleOf(shares, i) == base
    requires Renames(shares, renames, turns) && used == UsedAt(shares, renames, |renames|)
    ensures Renames(shares, longer, turns + [i]) && used' == UsedAt(shares, longer, |longer|)
  {
    var candidate := FreeCandidate(base, used);
    var rename := Rename(shares[i].code, shares[i].title, candidate);
    RenamesSnoc(shares, renames, turns, rename, i);
    longer, used' := renames + [rename], used + {candidate};
  }

  /** A share's title, without the white space around it, or an earlier new one. */
  ghost predicate InUse(rows: seq<Share>, renames: seq<Rename>, k: nat, t: string)
    requires k <= |renames|
  {
    || (exists j :: 0 <= j < |rows| && TrimmedAs(rows[j].title, t))
    || (exists l :: 0 <= l < k && renames[l].to == t)
  }

  ghost predicate Taken(rows: seq<Share>, renames: seq<Rename>, k: nat, base: string, m: nat)
    requires k <= |renames|
  {
    exists s :: Decimal(m, s) && InUse(rows, renames, k, base + s)
  }

  lemma InUseIff(rows: seq<Share>, renames: seq<Rename>, k: nat, t: string)
    requires k <= |renames|
    ensures InUse(rows, renames, k, t) <==> t in UsedAt(rows, renames, k)
  {
    forall j | 0 <= j < |rows|
      ensures TrimmedAs(rows[j].title, t) <==> TitleOf(rows, j) == t
    {
      TrimmedIff(rows[j].title, t);
    }
    if InUse(rows, renames, k, t) {
      if j :| 0 <= j < |rows| && TrimmedAs(rows[j].title, t) {
        assert TitleOf(rows, j) == t;
      }
    }
    if t in UsedAt(rows, renames, k) && t !in TitlesUsed(rows) {
      var l :| 0 <= l < k && renames[l].to == t;
    }
  }

  /**
   A new title is the share's own, without the white space around it, and the least number from 1 up,
   in decimal, that makes it one not in use.
   */
  lemma NumberedTitle(rows: seq<Share>, renames: seq<Rename>, k: nat)
    returns (i: nat, base: string, n: nat, digits: string)
    requires Renames(rows, renames, AllTurns(rows)) && k < |renames|
    ensures i < |rows| && renames[k].code == rows[i].code && renames[k].from == rows[i].title
    ensures TrimmedAs(rows[i].title, base) && n >= 1 && Decimal(n, digits) && renames[k].to == base + digits
    ensures !InUse(rows, renames, k, base + digits)
    ensures forall m: nat :: 1 <= m < n ==> Taken(rows, renames, k, base, m)
  {
    i := AllTurns(rows)[k];
    assert RenameOk(rows, renames, k, i);
    base := TitleOf(rows, i);
    TrimmedIff(rows[i].title, base);
    n :| n >= 1 && renames[k].to == Candidate(base, n) && renames[k].to !in UsedAt(rows, renames, k)
         && Candidates(base, n) <= UsedAt(rows, renames, k);
    digits := Itoa(n);
    ItoaDecimal(n);
    InUseIff(rows, renames, k, base + digits);
    forall m: nat | 1 <= m < n
      ensures Taken(rows, renames, k, base, m)
    {
      ItoaDecimal(m);
      assert Candidate(base, m) in Candidates(base, n);
      InUseIff(rows, renames, k, base + Itoa(m));
    }
  }

  // ----- applying the plan -----

  function Retitled(rows: seq<Share>, r: Rename): seq<Share> {
    UpdateWhere(rows, r.code, (sh: Share) => sh.(title := r.to))
  }

  function Applied(rows: seq<Share>, renames: seq<Rename>): seq<Share> {
    if renames == [] then rows else Retitled(Applied(rows, renames[..|renames| - 1]), renames[|renames| - 1])
  }

  /** A row after the renames: `k` is its turn, or -1 if it has none. Only the title changes. */
  lemma {:induction false} AppliedRow(rows: seq<Share>, renames: seq<Rename>, turns: seq<nat>, i: nat, k: int)
    requires UniqueCodes(rows) && Renames(rows, renames, turns) && i < |rows|
    requires forall l, m :: 0 <= l < m < |turns| ==> turns[l] != turns[m]
    requires if k == -1 then i !in turns else 0 <= k < |turns| && turns[k] == i
    ensures |Applied(rows, renames)| == |rows|
    ensures Applied(rows, renames)[i] == if k == -1 then rows[i] else rows[i].(title := renames[k].to)
    decreases |renames|
  {
    if renames != [] {
      var n := |renames| - 1;
      assert RenameOk(rows, renames, n, turns[n]);
      RenamesPrefix(rows, renames, turns, n);
      assert renames[n].code == rows[turns[n]].code;
      assert i in turns[..n] ==> i in turns;
      assert k != -1 && k != n ==> turns[..n][k] == turns[k];
      AppliedRow(rows, renames[..n], turns[..n], i, if k == n then -1 else k);
      RetitledRow(rows, Applied(rows, renames[..n]), renames[n], i);
    }
  }

  lemma RetitledRow(rows: seq<Share>, before: seq<Share>, r: Rename, i: nat)
    requires |before| == |rows| && i < |rows| && before[i].code == rows[i].code
    ensures |Retitled(before, r)| == |rows|
    ensures Retitled(before, r)[i] == if rows[i].code == r.code then before[i].(title := r.to) else before[i]
  {
  }

  lemma RenamesPrefix(rows: seq<Share>, renames: seq<Rename>, turns: seq<nat>, n: nat)
    requires Renames(rows, renames, turns) && n <= |renames|
    ensures Renames(rows, renames[..n], turns[..n])
  {
    forall k | 0 <= k < n
      ensures RenameOk(rows, renames[..n], k, turns[..n][k])
    {
      assert RenameOk(rows, renames, k, turns[k]);
      assert forall j :: 0 <= j < k ==> renames[..n][j] == renames[j];
      assert UsedAt(rows, renames[..n], k) == UsedAt(rows, renames, k);
    }
  }

  ghost predicate TitlesDistinct(rows: seq<Share>) {
    forall i, j :: 0 <= i < j < |rows| && TitleOf(rows, i) != "" ==> TitleOf(rows, i) != TitleOf(rows, j)
  }

  /** A new title is trimmed, unlike every title before the plan, and unlike every earlier new one. */
  lemma NewTitle(rows: seq<Share>, renames: seq<Rename>, k: nat)
    requires Renames(rows, renames, AllTurns(rows)) && k < |renames|
    ensures Trim(renames[k].to) == renames[k].to != ""
    ensures forall j :: 0 <= j < |rows| ==> TitleOf(rows, j) != renames[k].to
    ensures forall l :: 0 <= l < k ==> renames[l].to != renames[k].to
  {
    var i := AllTurns(rows)[k];
    assert RenameOk(rows, renames, k, i);
    TurnsAreRepeats(rows);
    assert i in AllTurns(rows);
    var n: nat :| n >= 1 && renames[k].to == Candidate(TitleOf(rows, i), n)
        && renames[k].to !in UsedAt(rows, renames, k);
    TrimTight(rows[i].title);
    CandidateTight(TitleOf(rows, i), n);
    forall j | 0 <= j < |rows| ensures TitleOf(rows, j) in UsedAt(rows, renames, k) {
    }
    forall l | 0 <= l < k ensures renames[l].to in UsedAt(rows, renames, k) {
    }
  }

  /** A row's title after the plan: its own if no earlier share had it, else the new one of its turn. */
  lemma TitleAfter(rows: seq<Share>, renames: seq<Rename>, i: nat) returns (k: int)
    requires UniqueCodes(rows) && Renames(rows, renames, AllTurns(rows)) && i < |rows|
    ensures |Applied(rows, renames)| == |rows|
    ensures k == -1 ==> !Repeats(rows, i) && Applied(rows, renames)[i] == rows[i]
    ensures k != -1 ==>
              0 <= k < |renames| && AllTurns(rows)[k] == i && TitleOf(Applied(rows, renames), i) == renames[k].to
  {
    TurnsAreRepeats(rows);
    k := -1;
    if i in AllTurns(rows) {
      k :| 0 <= k < |AllTurns(rows)| && AllTurns(rows)[k] == i;
      NewTitle(rows, renames, k);
    }
    AppliedRow(rows, renames, AllTurns(rows), i, k);
  }

  /** Applying the plan makes all nonblank titles distinct, whatever they were. */
  lemma PlanMakesDistinct(rows: seq<Share>, renames: seq<Rename>)
    requires UniqueCodes(rows) && Renames(rows, renames, AllTurns(rows))
    ensures |Applied(rows, renames)| == |rows| && TitlesDistinct(Applied(rows, renames))
  {
    var after := Applied(rows, renames);
    AppliedLength(rows, renames);
    forall i, j | 0 <= i < j < |after| && TitleOf(after, i) != ""
      ensures TitleOf(after, i) != TitleOf(after, j)
    {
      PairDiffers(rows, renames, i, j);
    }
  }

  lemma PairDiffers(rows: seq<Share>, renames: seq<Rename>, i: nat, j: nat)
    requires UniqueCodes(rows) && Renames(rows, renames, AllTurns(rows)) && i < j < |rows|
    requires |Applied(rows, renames)| == |rows| && TitleOf(Applied(rows, renames), i) != ""
    ensures TitleOf(Applied(rows, renames), i) != TitleOf(Applied(rows, renames), j)
  {
    var k := TitleAfter(rows, renames, i);
    var l := TitleAfter(rows, renames, j);
    if k != -1 { NewTitle(rows, renames, k); }
    if l != -1 { NewTitle(rows, renames, l); }
    if k == -1 && l == -1 {
      assert !Repeats(rows, j);
    } else if k == -1 {
      assert TitleOf(rows, i) != renames[l].to;
    } else if l == -1 {
      assert TitleOf(rows, j) != renames[k].to;
    } else {
      assert renames[k].to != renames[l].to;
    }
  }

  lemma {:induction false} AppliedLength(rows: seq<Share>, renames: seq<Rename>)
    ensures |Applied(rows, renames)| == |rows|
    ensures forall i :: 0 <= i < |rows| ==>
            Applied(rows, renames)[i] == rows[i].(title := Applied(rows, renames)[i].title)
  {
    if renames != [] {
      AppliedLength(rows, renames[..|renames| - 1]);
    }
  }

  /** The first share of each group, and every blank title, is left alone. */
  lemma FirstKeepsTitle(rows: seq<Share>, renames: seq<Rename>, i: nat)
    requires UniqueCodes(rows) && Renames(rows, renames, AllTurns(rows)) && i < |rows|
    ensures |Applied(rows, renames)| == |rows|
    ensures Applied(rows, renames)[i] == rows[i] <==> !Repeats(rows, i)
  {
    var k := TitleAfter(rows, renames, i);
    if k != -1 {
      NewTitle(rows, renames, k);
      TurnsAreRepeats(rows);
      assert i in AllTurns(rows);
    }
  }

  lemma FirstElement(xs: seq<nat>)
    ensures xs == [] || xs[0] in xs
  {
  }

  /** Once titles are distinct there is nothing to plan. */
  lemma DistinctPlansNothing(rows: seq<Share>, renames: seq<Rename>)
    requires TitlesDistinct(rows) && Renames(rows, renames, AllTurns(rows))
    ensures renames == []
  {
    TurnsAreRepeats(rows);
    FirstElement(AllTurns(rows));
  }

  /** The answers for one deduplication: the listing of the shares, then each rename. */
  datatype Answers = Answers(listed: bool, renamed: nat -> bool)

  predicate RenameWorks(answers: Answers, k: nat) { answers.renamed(k) }

  /** The titles of the share table, as the store's methods update them. */
  class TitleTable {
    var rows: seq<Share>

    constructor (rows: seq<Share>)
      ensures this.rows == rows
    {
      this.rows := rows;
    }

    method RenameShareTitle(code: string, title: string, works: bool) returns (found: bool)
      modifies this
      ensures |rows| == |old(rows)|
      ensures forall i :: 0 <= i < |rows| ==>
                rows[i] == if works && old(rows)[i].code == code then old(rows)[i].(title := title) else old(rows)[i]
      ensures found <==> works && exists i :: 0 <= i < |old(rows)| && old(rows)[i].code == code
    {
      found := false;
      if works {
        found := exists i :: 0 <= i < |rows| && rows[i].code == code;
        rows := UpdateWhere(rows, code, (sh: Share) => sh.(title := title));
      }
    }

    /** Applies renames in order, up to the first that fails. */
    method ApplyRenames(renames: seq<Rename>, answers: Answers) returns (done: nat)
      modifies this
      ensures done <= |renames| && (done < |renames| ==> !RenameWorks(answers, done))
      ensures forall k :: 0 <= k < done ==> RenameWorks(answers, k)
      ensures rows == Applied(old(rows), renames[..done])
    {
      done := 0;
      while done < |renames| && RenameWorks(answers, done)
        invariant done <= |renames| && forall k :: 0 <= k < done ==> RenameWorks(answers, k)
        invariant rows == Applied(old(rows), renames[..done])
      {
        ghost var before := rows;
        var found := RenameShareTitle(renames[done].code, renames[done].to, true);
        assert rows == Retitled(before, renames[done]);
        assert renames[..done + 1][..done] == renames[..done];
        done := done + 1;
      }
    }

    /** Plan, and unless it is a dry run apply; a failure leaves the renames before it applied. */
    method DedupeShareTitles(dryRun: bool, answers: Answers) returns (ok: bool, renames: seq<Rename>)
      modifies this
      ensures if answers.listed then Renames(old(rows), renames, AllTurns(old(rows))) else !ok && renames == []
      ensures !answers.listed || dryRun ==> rows == old(rows)
      ensures answers.listed ==> (ok <==> dryRun || forall k :: 0 <= k < |renames| ==> RenameWorks(answers, k))
      ensures answers.listed && !dryRun && ok ==> rows == Applied(old(rows), renames)
      ensures answers.listed && !dryRun && ok && UniqueCodes(old(rows)) ==> TitlesDistinct(rows)
      ensures answers.listed && !ok ==>
                exists n :: 0 <= n < |renames| && !RenameWorks(answers, n)
                            && (forall k :: 0 <= k < n ==> RenameWorks(answers, k))
                            && rows == Applied(old(rows), renames[..n])
    {
      ok, renames := answers.listed, [];
      if !answers.listed {
        return;
      }
      renames := PlanShareRenames(rows);
      if !dryRun {
        var done := ApplyRenames(renames, answers);
        ok := done == |renames|;
        assert renames[..|renames|] == renames;
        if ok && UniqueCodes(old(rows)) {
          PlanMakesDistinct(old(rows), renames);
        }
      }
    }
  }
}
