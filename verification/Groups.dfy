/** The grouping overlay: shares/groups.go read into sections, then ApplyGroups over the share table. */
module Groups {
  import opened Basics
  import opened Shares

  /** A line of the overlay, trimmed; an identifier is reduced to its share code, or rejected, by the URL parser. */
  datatype Line = Blank | Header(name: string) | Entry(code: string) | BadEntry

  datatype ShareGroup = ShareGroup(name: string, codes: seq<string>)

  datatype ParseError = BeforeHeader(line: nat) | BadIdentifier(line: nat) | ReadFailed

  /** Where a code stands: in a section, counted from 0, or in none. */
  datatype Section = Nowhere | In(index: nat)

  // ----- what the overlay says -----

  /** The number of section headers among the first `n` lines. */
  function Sections(lines: seq<Line>, n: nat): nat
    requires n <= |lines|
  {
    if n == 0 then 0 else Sections(lines, n - 1) + (if lines[n - 1].Header? then 1 else 0)
  }

  /** The first line at which reading must fail. */
  ghost predicate FailsAt(lines: seq<Line>, n: nat, e: ParseError) {
    && n < |lines|
    && (((lines[n].Entry? || lines[n].BadEntry?) && Sections(lines, n) == 0 && e == BeforeHeader(n + 1))
        || (lines[n].BadEntry? && Sections(lines, n) > 0 && e == BadIdentifier(n + 1)))
  }

  ghost predicate Readable(lines: seq<Line>, n: nat) {
    forall i, e :: 0 <= i < n ==> !FailsAt(lines, i, e)
  }

  /** The section of the last mention of `code` in the first `n` lines. */
  function Owner(lines: seq<Line>, n: nat, code: string): Section
    requires n <= |lines|
  {
    if n == 0 then Nowhere
    else if lines[n - 1] == Entry(code) && Sections(lines, n - 1) > 0 then In(Sections(lines, n - 1) - 1)
    else Owner(lines, n - 1, code)
  }

  /** The codes mentioned in section `g` within the first `n` lines, in order of first mention there. */
  function Mentions(lines: seq<Line>, n: nat, g: nat): seq<string>
    requires n <= |lines|
  {
    if n == 0 then []
    else
      var before := Mentions(lines, n - 1, g);
      if lines[n - 1].Entry? && Sections(lines, n - 1) == g + 1
          && lines[n - 1].code !in before then before + [lines[n - 1].code]
      else before
  }

  /** The moves: one entry for each mention of a code that its latest mention put in another section. */
  function Moves(lines: seq<Line>, n: nat): seq<string>
    requires n <= |lines|
  {
    if n == 0 then []
    else
      var before := Moves(lines, n - 1);
      if lines[n - 1].Entry? && Sections(lines, n - 1) > 0
         && Owner(lines, n - 1, lines[n - 1].code).In?
         && Owner(lines, n - 1, lines[n - 1].code).index != Sections(lines, n - 1) - 1
      then before + [lines[n - 1].code]
      else before
  }

  /** Those of `codes` whose last mention is in section `g`. */
  function Kept(lines: seq<Line>, n: nat, g: nat, codes: seq<string>): seq<string>
    requires n <= |lines|
  {
    if codes == [] then []
    else
      var last := codes[|codes| - 1];
      Kept(lines, n, g, codes[..|codes| - 1]) + (if Owner(lines, n, last) == In(g) then [last] else [])
  }

  /** Section `g`'s codes: those mentioned there and in no later section, in order of first mention there. */
  function Members(lines: seq<Line>, n: nat, g: nat): seq<string>
    requires n <= |lines|
  {
    Kept(lines, n, g, Mentions(lines, n, g))
  }

  predicate NoRepeats(codes: seq<string>) {
    forall i, j :: 0 <= i < j < |codes| ==> codes[i] != codes[j]
  }

  // ----- facts about it -----

  lemma {:induction false} OwnerInRange(lines: seq<Line>, n: nat, code: string)
    requires n <= |lines|
    ensures Owner(lines, n, code).In? ==> Owner(lines, n, code).index < Sections(lines, n)
  {
    if n > 0 {
      OwnerInRange(lines, n - 1, code);
    }
  }

  lemma {:induction false} OwnerMentioned(lines: seq<Line>, n: nat, code: string)
    requires n <= |lines|
    ensures Owner(lines, n, code).In? ==> code in Mentions(lines, n, Owner(lines, n, code).index)
  {
    if n > 0 {
      OwnerMentioned(lines, n - 1, code);
    }
  }

  lemma {:induction false} MentionsNoRepeats(lines: seq<Line>, n: nat, g: nat)
    requires n <= |lines|
    ensures NoRepeats(Mentions(lines, n, g))
    ensures g >= Sections(lines, n) ==> Mentions(lines, n, g) == []
  {
    if n > 0 {
      MentionsNoRepeats(lines, n - 1, g);
    }
  }

  lemma {:induction false} KeptHolds(lines: seq<Line>, n: nat, g: nat, codes: seq<string>)
    requires n <= |lines| && NoRepeats(codes)
    ensures NoRepeats(Kept(lines, n, g, codes))
    ensures forall c :: c in Kept(lines, n, g, codes) <==> c in codes && Owner(lines, n, c) == In(g)
  {
    if codes != [] {
      var k := |codes| - 1;
      KeptHolds(lines, n, g, codes[..k]);
      assert codes == codes[..k] + [codes[k]];
      assert codes[k] !in codes[..k];
    }
  }

  /** A code stands in exactly one section, once: the last one naming it. */
  lemma MembersExact(lines: seq<Line>, n: nat, g: nat, code: string)
    requires n <= |lines|
    ensures code in Members(lines, n, g) <==> Owner(lines, n, code) == In(g)
    ensures NoRepeats(Members(lines, n, g))
  {
    MentionsNoRepeats(lines, n, g);
    KeptHolds(lines, n, g, Mentions(lines, n, g));
    OwnerMentioned(lines, n, code);
  }

  // ----- one line read -----

  /** The slice without the first occurrence of `s`. */
  function RemoveString(codes: seq<string>, s: string): seq<string> {
    if codes == [] then []
    else if codes[0] == s then codes[1..]
    else [codes[0]] + RemoveString(codes[1..], s)
  }

  method RemoveFirst(codes: seq<string>, s: string) returns (rest: seq<string>)
    ensures rest == RemoveString(codes, s)
    ensures s !in codes ==> rest == codes
    ensures s in codes ==> exists k :: 0 <= k < |codes| && codes[k] == s && s !in codes[..k]
                                       && rest == codes[..k] + codes[k + 1..]
  {
    for i := 0 to |codes|
      invariant RemoveString(codes, s) == codes[..i] + RemoveString(codes[i..], s) && s !in codes[..i]
    {
      if codes[i] == s {
        return codes[..i] + codes[i + 1..];
      }
      assert codes[i..] == [codes[i]] + codes[i + 1..];
      assert codes[..i + 1] == codes[..i] + [codes[i]];
    }
    assert codes[..|codes|] == codes && codes[|codes|..] == [];
    rest := codes;
  }

  lemma {:induction false} RemoveSnoc(codes: seq<string>, last: string, s: string)
    requires NoRepeats(codes + [last])
    ensures RemoveString(codes + [last], s)
            == if last == s then RemoveString(codes, s) else RemoveString(codes, s) + [last]
    ensures last == s ==> RemoveString(codes, s) == codes
    decreases |codes|
  {
    if codes == [] {
      assert [last][1..] == [];
    } else {
      var all := codes + [last];
      assert all[1..] == codes[1..] + [last];
      assert codes == [codes[0]] + codes[1..];
      assert NoRepeats(codes[1..] + [last]) by {
        assert forall i :: 0 <= i < |all| - 1 ==> all[1..][i] == all[i + 1];
      }
      assert last == s ==> codes[0] != s by {
        assert all[0] == codes[0] && all[|all| - 1] == last;
      }
      RemoveSnoc(codes[1..], last, s);
    }
  }

  /** When a code's last mention moves from `g` to another section, what `g` keeps loses that code and nothing else. */
  lemma {:induction false} KeptAfterMove(lines: seq<Line>, n: nat, g: nat, codes: seq<string>, code: string)
    requires n < |lines| && NoRepeats(codes)
    requires forall c :: c != code ==> Owner(lines, n + 1, c) == Owner(lines, n, c)
    requires Owner(lines, n, code) == In(g) && Owner(lines, n + 1, code) != In(g)
    ensures Kept(lines, n + 1, g, codes) == RemoveString(Kept(lines, n, g, codes), code)
  {
    if codes != [] {
      var k := |codes| - 1;
      var last := codes[k];
      KeptAfterMove(lines, n, g, codes[..k], code);
      KeptHolds(lines, n, g, codes[..k]);
      assert codes == codes[..k] + [last];
      assert last !in codes[..k];
      var front := Kept(lines, n, g, codes[..k]);
      if Owner(lines, n, last) == In(g) {
        RemoveSnoc(front, last, code);
      } else {
        assert Kept(lines, n, g, codes) == front;
      }
    }
  }

  /** A section whose codes' owners do not change keeps the same codes. */
  lemma {:induction false} KeptSame(lines: seq<Line>, m: nat, n: nat, g: nat, codes: seq<string>)
    requires m <= |lines| && n <= |lines|
    requires forall c :: c in codes ==> (Owner(lines, m, c) == In(g) <==> Owner(lines, n, c) == In(g))
    ensures Kept(lines, m, g, codes) == Kept(lines, n, g, codes)
  {
    if codes != [] {
      var k := |codes| - 1;
      assert codes == codes[..k] + [codes[k]];
      KeptSame(lines, m, n, g, codes[..k]);
    }
  }

  lemma NonEntryKeeps(lines: seq<Line>, n: nat, g: nat)
    requires n < |lines| && !lines[n].Entry?
    ensures Members(lines, n + 1, g) == Members(lines, n, g)
  {
    KeptSame(lines, n, n + 1, g, Mentions(lines, n, g));
  }

  /** How one entry changes a section. */
  lemma EntryChanges(lines: seq<Line>, n: nat, g: nat)
    requires n < |lines| && lines[n].Entry? && Sections(lines, n) > 0
    ensures var code, idx := lines[n].code, Sections(lines, n) - 1;
            Members(lines, n + 1, g) ==
            if g == idx then
              if Owner(lines, n, code) == In(idx) then Members(lines, n, g) else Members(lines, n, g) + [code]
            else if Owner(lines, n, code) == In(g) then RemoveString(Members(lines, n, g), code)
            else Members(lines, n, g)
  {
    var code, idx := lines[n].code, Sections(lines, n) - 1;
    var mentions := Mentions(lines, n, g);
    MentionsNoRepeats(lines, n, g);
    OwnerMentioned(lines, n, code);
    if g == idx {
      MentionOwned(lines, n, code, idx);
      KeptSame(lines, n, n + 1, g, mentions);
      if code !in mentions {
        assert (mentions + [code])[..|mentions|] == mentions;
      }
    } else if Owner(lines, n, code) == In(g) {
      KeptAfterMove(lines, n, g, mentions, code);
    } else {
      KeptSame(lines, n, n + 1, g, mentions);
    }
  }

  /** Within the section being read, a mention is the latest. */
  lemma {:induction false} MentionOwned(lines: seq<Line>, n: nat, code: string, idx: nat)
    requires n <= |lines| && Sections(lines, n) == idx + 1
    ensures code in Mentions(lines, n, idx) <==> Owner(lines, n, code) == In(idx)
  {
    OwnerMentioned(lines, n, code);
    if n > 0 && code in Mentions(lines, n, idx) && Owner(lines, n, code) != In(idx) {
      if lines[n - 1].Header? {
        MentionsNoRepeats(lines, n - 1, idx);
      } else {
        MentionOwned(lines, n - 1, code, idx);
      }
      assert false;
    }
  }

  // ----- told by the lines -----

  /** Line `i` is the latest of the first `n` to mention `code`. */
  predicate LastMention(lines: seq<Line>, n: nat, code: string, i: nat)
    requires n <= |lines|
  {
    i < n && lines[i] == Entry(code) && forall j :: i < j < n ==> lines[j] != Entry(code)
  }

  /** A section is counted by the headers at or before its lines, and named by the last of them. */
  lemma {:induction false} SectionHeader(lines: seq<Line>, n: nat, i: nat) returns (h: nat)
    requires i <= n <= |lines| && Sections(lines, i) > 0
    ensures h < i && lines[h].Header? && forall j :: h < j < i ==> !lines[j].Header?
    ensures NameOf(lines, n, Sections(lines, i) - 1) == lines[h].name
  {
    if lines[i - 1].Header? {
      h := i - 1;
      NameStays(lines, i, n, Sections(lines, i) - 1);
    } else {
      h := SectionHeader(lines, n, i - 1);
    }
  }

  lemma {:induction false} NameStays(lines: seq<Line>, m: nat, n: nat, g: nat)
    requires m <= n <= |lines| && g < Sections(lines, m)
    ensures NameOf(lines, n, g) == NameOf(lines, m, g)
  {
    if m < n {
      SectionsGrow(lines, m, n - 1);
      NameStays(lines, m, n - 1, g);
    }
  }

  lemma {:induction false} SectionsGrow(lines: seq<Line>, m: nat, n: nat)
    requires m <= n <= |lines|
    ensures Sections(lines, m) <= Sections(lines, n)
    ensures Sections(lines, m) < Sections(lines, n) <==> exists h :: m <= h < n && lines[h].Header?
  {
    if m < n {
      SectionsGrow(lines, m, n - 1);
    }
  }

  lemma EntryBelowHeader(lines: seq<Line>, n: nat, i: nat)
    requires i < n <= |lines| && Readable(lines, n) && lines[i].Entry?
    ensures Sections(lines, i) > 0
  {
    assert !FailsAt(lines, i, BeforeHeader(i + 1));
  }

  /** A code's section is that of its latest mention, once no entry stands before the first header. */
  lemma {:induction false} OwnerIsLast(lines: seq<Line>, n: nat, code: string, i: nat)
    requires n <= |lines| && Readable(lines, n) && LastMention(lines, n, code, i)
    ensures Sections(lines, i) > 0 && Owner(lines, n, code) == In(Sections(lines, i) - 1)
  {
    EntryBelowHeader(lines, n, i);
    if i < n - 1 {
      OwnerIsLast(lines, n - 1, code, i);
    }
  }

  lemma {:induction false} NeverMentioned(lines: seq<Line>, n: nat, code: string)
    requires n <= |lines| && forall i :: 0 <= i < n ==> lines[i] != Entry(code)
    ensures Owner(lines, n, code) == Nowhere
  {
    if n > 0 {
      NeverMentioned(lines, n - 1, code);
    }
  }

  /** Line `i` is the first of section `g` to mention `code`. */
  predicate FirstMention(lines: seq<Line>, g: nat, code: string, i: nat) {
    && i < |lines| && lines[i] == Entry(code) && Sections(lines, i) == g + 1
    && forall j :: 0 <= j < i && Sections(lines, j) == g + 1 ==> lines[j] != Entry(code)
  }

  /** Each of a section's mentions has its line. */
  lemma {:induction false} MentionLine(lines: seq<Line>, n: nat, g: nat, k: nat) returns (i: nat)
    requires n <= |lines| && k < |Mentions(lines, n, g)|
    ensures i < n && FirstMention(lines, g, Mentions(lines, n, g)[k], i)
    ensures k >= |Mentions(lines, n - 1, g)| ==> i == n - 1
  {
    var before := Mentions(lines, n - 1, g);
    if k < |before| {
      i := MentionLine(lines, n - 1, g, k);
    } else {
      i := n - 1;
      EarlierMention(lines, n - 1, g, lines[i].code);
    }
  }

  lemma {:induction false} EarlierMention(lines: seq<Line>, n: nat, g: nat, code: string)
    requires n <= |lines|
    ensures code in Mentions(lines, n, g)
            <==> exists j :: 0 <= j < n && Sections(lines, j) == g + 1 && lines[j] == Entry(code)
  {
    if n > 0 {
      EarlierMention(lines, n - 1, g, code);
    }
  }

  /** The mentions come in the order of their lines. */
  lemma {:induction false} MentionsInOrder(lines: seq<Line>, n: nat, g: nat, k: nat, l: nat, i: nat, j: nat)
    requires n <= |lines| && k < l < |Mentions(lines, n, g)|
    requires FirstMention(lines, g, Mentions(lines, n, g)[k], i) && FirstMention(lines, g, Mentions(lines, n, g)[l], j)
    ensures i < j
  {
    var before := Mentions(lines, n - 1, g);
    if l < |before| {
      MentionsInOrder(lines, n - 1, g, k, l, i, j);
    } else {
      var m := MentionLine(lines, n - 1, g, k);
      var last := MentionLine(lines, n, g, l);
      OneFirstMention(lines, g, Mentions(lines, n, g)[k], i, m);
      OneFirstMention(lines, g, Mentions(lines, n, g)[l], j, last);
    }
  }

  lemma OneFirstMention(lines: seq<Line>, g: nat, code: string, i: nat, j: nat)
    requires FirstMention(lines, g, code, i) && FirstMention(lines, g, code, j)
    ensures i == j
  {
  }

  /** What a section keeps comes in the order of its mentions. */
  lemma {:induction false} KeptPlaces(lines: seq<Line>, n: nat, g: nat, codes: seq<string>, k: nat, l: nat)
    returns (p: nat, q: nat)
    requires n <= |lines| && k < l < |Kept(lines, n, g, codes)|
    ensures p < q < |codes| && codes[p] == Kept(lines, n, g, codes)[k] && codes[q] == Kept(lines, n, g, codes)[l]
  {
    var m := |codes| - 1;
    var front := Kept(lines, n, g, codes[..m]);
    if l < |front| {
      p, q := KeptPlaces(lines, n, g, codes[..m], k, l);
    } else {
      p := KeptPlace(lines, n, g, codes[..m], k);
      q := m;
    }
  }

  lemma {:induction false} KeptPlace(lines: seq<Line>, n: nat, g: nat, codes: seq<string>, k: nat) returns (p: nat)
    requires n <= |lines| && k < |Kept(lines, n, g, codes)|
    ensures p < |codes| && codes[p] == Kept(lines, n, g, codes)[k]
  {
    var m := |codes| - 1;
    if k < |Kept(lines, n, g, codes[..m])| {
      p := KeptPlace(lines, n, g, codes[..m], k);
    } else {
      p := m;
    }
  }

  /** A section's codes come in the order in which it first mentions them. */
  lemma MembersInOrder(lines: seq<Line>, n: nat, g: nat, k: nat, l: nat) returns (i: nat, j: nat)
    requires n <= |lines| && k < l < |Members(lines, n, g)|
    ensures i < j < n
    ensures FirstMention(lines, g, Members(lines, n, g)[k], i) && FirstMention(lines, g, Members(lines, n, g)[l], j)
  {
    var p, q := KeptPlaces(lines, n, g, Mentions(lines, n, g), k, l);
    i := MentionLine(lines, n, g, p);
    j := MentionLine(lines, n, g, q);
    MentionsInOrder(lines, n, g, p, q, i, j);
  }

  /** Line `i` mentions a code whose mention before it stands above a header that is above line `i`. */
  ghost predicate MovesAt(lines: seq<Line>, i: nat)
    requires i < |lines|
  {
    && lines[i].Entry?
    && exists j: nat, h: nat :: LastMention(lines, i, lines[i].code, j) && j < h < i && lines[h].Header?
  }

  lemma MovesAtIff(lines: seq<Line>, n: nat)
    requires n < |lines| && Readable(lines, n + 1) && lines[n].Entry?
    ensures Sections(lines, n) > 0
    ensures MovesAt(lines, n)
            <==> Owner(lines, n, lines[n].code).In? && Owner(lines, n, lines[n].code).index != Sections(lines, n) - 1
  {
    var code := lines[n].code;
    EntryBelowHeader(lines, n + 1, n);
    var j: int := LatestMention(lines, n, code);
    if j < 0 {
      NeverMentioned(lines, n, code);
    } else {
      OwnerIsLast(lines, n, code, j);
      SectionsGrow(lines, j, n);
      assert forall i: nat :: LastMention(lines, n, code, i) ==> i == j;
    }
  }

  lemma {:induction false} LatestMention(lines: seq<Line>, n: nat, code: string) returns (j: int)
    requires n <= |lines|
    ensures j < 0 ==> forall i :: 0 <= i < n ==> lines[i] != Entry(code)
    ensures j >= 0 ==> LastMention(lines, n, code, j)
  {
    j := -1;
    if n > 0 {
      if lines[n - 1] == Entry(code) {
        j := n - 1;
      } else {
        j := LatestMention(lines, n - 1, code);
      }
    }
  }

  /** One duplicate is reported for each line that moves a code from one section to another, in order. */
  lemma {:induction false} MovesAreMoves(lines: seq<Line>, n: nat) returns (at: seq<nat>)
    requires n <= |lines| && Readable(lines, n)
    ensures |at| == |Moves(lines, n)| && forall k :: 0 <= k < |at| ==>
              at[k] < n && lines[at[k]] == Entry(Moves(lines, n)[k])
    ensures forall k, l :: 0 <= k < l < |at| ==> at[k] < at[l]
    ensures forall i :: 0 <= i < n ==> (i in at <==> MovesAt(lines, i))
  {
    at := [];
    if n > 0 {
      at := MovesAreMoves(lines, n - 1);
      if lines[n - 1].Entry? {
        MovesAtIff(lines, n - 1);
        if MovesAt(lines, n - 1) {
          at := at + [n - 1];
        }
      }
    }
  }

  // ----- the parser -----

  /** The header names so far, and each section's codes. */
  ghost predicate GroupsRead(lines: seq<Line>, n: nat, groups: seq<ShareGroup>)
    requires n <= |lines|
  {
    && |groups| == Sections(lines, n)
    && (forall g :: 0 <= g < |groups| ==> GroupRead(lines, n, g, groups[g]))
  }

  ghost predicate GroupRead(lines: seq<Line>, n: nat, g: nat, group: ShareGroup)
    requires n <= |lines|
  {
    match group
    case ShareGroup(name, codes) => codes == Members(lines, n, g) && name == NameOf(lines, n, g)
  }

  function NameOf(lines: seq<Line>, n: nat, g: nat): string
    requires n <= |lines|
  {
    if n == 0 then ""
    else if lines[n - 1].Header? && Sections(lines, n - 1) == g then lines[n - 1].name else NameOf(lines, n - 1, g)
  }

  ghost predicate OwnersRead(lines: seq<Line>, n: nat, owner: map<string, nat>)
    requires n <= |lines|
  {
    forall code :: OwnerIn(owner, code) == Owner(lines, n, code)
  }

  function OwnerIn(owner: map<string, nat>, code: string): Section {
    if code in owner then In(owner[code]) else Nowhere
  }

  /** What becomes of section `g` when `code` moves from `prev`, if it was anywhere, to `idx`. */
  function Moved(group: ShareGroup, g: nat, prev: Section, idx: nat, code: string): ShareGroup {
    if g == idx then group.(codes := group.codes + [code])
    else if prev == In(g) then group.(codes := RemoveString(group.codes, code))
    else group
  }

  lemma ReadMovedAt(lines: seq<Line>, n: nat, group: ShareGroup, g: nat, prev: Section, idx: nat, code: string)
    requires n < |lines| && lines[n] == Entry(code) && Sections(lines, n) == idx + 1
    requires prev == Owner(lines, n, code) && prev != In(idx)
    requires GroupRead(lines, n, g, group)
    ensures GroupRead(lines, n + 1, g, Moved(group, g, prev, idx, code))
  {
    EntryChanges(lines, n, g);
  }

  lemma ReadMoved(lines: seq<Line>, n: nat, groups: seq<ShareGroup>, groups': seq<ShareGroup>, prev: Section,
                  idx: nat, code: string)
    requires n < |lines| && lines[n] == Entry(code) && Sections(lines, n) == idx + 1
    requires prev == Owner(lines, n, code) && prev != In(idx)
    requires GroupsRead(lines, n, groups) && |groups'| == |groups|
    requires forall g :: 0 <= g < |groups| ==> groups'[g] == Moved(groups[g], g, prev, idx, code)
    ensures GroupsRead(lines, n + 1, groups')
  {
    forall g | 0 <= g < |groups'|
      ensures GroupRead(lines, n + 1, g, groups'[g])
    {
      ReadMovedAt(lines, n, groups[g], g, prev, idx, code);
    }
  }

  lemma OwnersNext(lines: seq<Line>, n: nat, owner: map<string, nat>, idx: nat)
    requires n < |lines| && lines[n].Entry? && Sections(lines, n) == idx + 1 && OwnersRead(lines, n, owner)
    ensures OwnersRead(lines, n + 1, owner[lines[n].code := idx])
  {
    var next := owner[lines[n].code := idx];
    forall code
      ensures OwnerIn(next, code) == Owner(lines, n + 1, code)
    {
      assert OwnerIn(owner, code) == Owner(lines, n, code);
    }
  }

  /** One entry line: drop the code from the section that had it, append it to the one being read. */
  method ReadEntry(lines: seq<Line>, n: nat, groups: seq<ShareGroup>, owner: map<string, nat>, duplicates: seq<string>)
    returns (groups': seq<ShareGroup>, owner': map<string, nat>, duplicates': seq<string>)
    requires n < |lines| && lines[n].Entry? && |groups| > 0
    requires GroupsRead(lines, n, groups) && OwnersRead(lines, n, owner) && duplicates == Moves(lines, n)
    ensures GroupsRead(lines, n + 1, groups') && OwnersRead(lines, n + 1, owner') && duplicates' == Moves(lines, n + 1)
  {
    groups', owner', duplicates' := groups, owner, duplicates;
    var code, idx := lines[n].code, |groups| - 1;
    OwnerInRange(lines, n, code);
    assert OwnerIn(owner, code) == Owner(lines, n, code);
    OwnersNext(lines, n, owner, idx);
    if code in owner && owner[code] == idx {
      assert owner[code := idx] == owner;
      ReadSame(lines, n, groups);
      return;
    }
    if code in owner {
      var prev := owner[code];
      var rest := RemoveFirst(groups'[prev].codes, code);
      groups' := groups'[prev := groups'[prev].(codes := rest)];
      duplicates' := duplicates' + [code];
    }
    groups' := groups'[idx := groups'[idx].(codes := groups'[idx].codes + [code])];
    owner' := owner'[code := idx];
    ReadMoved(lines, n, groups, groups', OwnerIn(owner, code), idx, code);
  }

  /** A code repeated within its section changes nothing. */
  lemma ReadSame(lines: seq<Line>, n: nat, groups: seq<ShareGroup>)
    requires n < |lines| && lines[n].Entry? && |groups| > 0 && GroupsRead(lines, n, groups)
    requires Owner(lines, n, lines[n].code) == In(|groups| - 1)
    ensures GroupsRead(lines, n + 1, groups)
  {
    forall g | 0 <= g < |groups|
      ensures GroupRead(lines, n + 1, g, groups[g])
    {
      assert GroupRead(lines, n, g, groups[g]);
      EntryChanges(lines, n, g);
    }
  }

  /**
   Read the overlay, or report the first line that cannot be read; failing that, that the input
   broke off after `lines`.
   */
  method ParseGroups(lines: seq<Line>, brokeOff: bool) returns (r: Result<(seq<ShareGroup>, seq<string>), ParseError>)
    ensures r.Ok? <==> Readable(lines, |lines|) && !brokeOff
    ensures r.Ok? ==> GroupsRead(lines, |lines|, r.value.0) && r.value.1 == Moves(lines, |lines|)
    ensures r.Err? && !r.error.ReadFailed? ==> exists n :: FailsAt(lines, n, r.error) && Readable(lines, n)
    ensures r == Err(ReadFailed) <==> Readable(lines, |lines|) && brokeOff
  {
    var groups: seq<ShareGroup>, duplicates: seq<string>, owner: map<string, nat> := [], [], map[];
    for n := 0 to |lines|
      invariant Readable(lines, n)
      invariant GroupsRead(lines, n, groups) && OwnersRead(lines, n, owner) && duplicates == Moves(lines, n)
    {
      var line := lines[n];
      if line.Header? {
        forall g | 0 <= g <= |groups| ensures Members(lines, n + 1, g) == Members(lines, n, g) {
          NonEntryKeeps(lines, n, g);
        }
        MentionsNoRepeats(lines, n, |groups|);
        groups := groups + [ShareGroup(line.name, [])];
      } else if line.Blank? {
        forall g | 0 <= g < |groups| ensures Members(lines, n + 1, g) == Members(lines, n, g) {
          NonEntryKeeps(lines, n, g);
        }
      } else if |groups| == 0 {
        assert FailsAt(lines, n, BeforeHeader(n + 1));
        return Err(BeforeHeader(n + 1));
      } else if line.BadEntry? {
        assert FailsAt(lines, n, BadIdentifier(n + 1));
        return Err(BadIdentifier(n + 1));
      } else {
        groups, owner, duplicates := ReadEntry(lines, n, groups, owner, duplicates);
      }
    }
    r := if brokeOff then Err(ReadFailed) else Ok((groups, duplicates));
  }

  // ----- applying the overlay -----

  /** Each code stands in one group only. */
  ghost predicate DisjointGroups(groups: seq<ShareGroup>) {
    forall g, h, c :: 0 <= g < h < |groups| && c in groups[g].codes ==> c !in groups[h].codes
  }

  /** The last of the first `n` groups naming `code`, as a 1-based group id. */
  function GroupId(groups: seq<ShareGroup>, n: nat, code: string): GroupRef
    requires n <= |groups|
  {
    if n == 0 then NoGroup else if code in groups[n - 1].codes then Group(n) else GroupId(groups, n - 1, code)
  }

  ghost predicate Assigned(rows: seq<Share>, rows': seq<Share>, groups: seq<ShareGroup>, n: nat)
    requires n <= |groups|
  {
    && |rows'| == |rows|
    && forall i :: 0 <= i < |rows| ==> rows'[i] == rows[i].(group := GroupId(groups, n, rows[i].code))
  }

  lemma SameCodes(a: seq<Share>, b: seq<Share>, code: string)
    requires |a| == |b| && forall i :: 0 <= i < |a| ==> a[i].code == b[i].code
    ensures HasCode(a, code) <==> HasCode(b, code)
  {
    if HasCode(a, code) {
      var i :| 0 <= i < |a| && a[i].code == code;
      assert b[i].code == code;
    }
    if HasCode(b, code) {
      var i :| 0 <= i < |b| && b[i].code == code;
      assert a[i].code == code;
    }
  }

  function CodesWithout(rows: seq<Share>, codes: seq<string>): seq<string> {
    if codes == [] then []
    else
      var last := codes[|codes| - 1];
      CodesWithout(rows, codes[..|codes| - 1]) + (if HasCode(rows, last) then [] else [last])
  }

  /** The codes of the first `n` groups that match no share, in order. */
  function Dormant(rows: seq<Share>, groups: seq<ShareGroup>, n: nat): seq<string>
    requires n <= |groups|
  {
    if n == 0 then [] else Dormant(rows, groups, n - 1) + CodesWithout(rows, groups[n - 1].codes)
  }

  lemma {:induction false} CodesWithoutExact(rows: seq<Share>, codes: seq<string>, code: string)
    ensures code in CodesWithout(rows, codes) <==> code in codes && !HasCode(rows, code)
  {
    if codes != [] {
      var n := |codes| - 1;
      CodesWithoutExact(rows, codes[..n], code);
      assert codes == codes[..n] + [codes[n]];
    }
  }

  /** The dormant codes are those of a section that belong to no row. */
  lemma {:induction false} DormantExact(rows: seq<Share>, groups: seq<ShareGroup>, n: nat, code: string)
    requires n <= |groups|
    ensures code in Dormant(rows, groups, n)
            <==> (exists g :: 0 <= g < n && code in groups[g].codes)
                 && forall j :: 0 <= j < |rows| ==> rows[j].code != code
  {
    if n > 0 {
      DormantExact(rows, groups, n - 1, code);
      CodesWithoutExact(rows, groups[n - 1].codes, code);
    }
  }

  /** A row of `share_group`. */
  datatype GroupRow = GroupRow(groupId: nat, name: string, sortOrder: nat)

  function GroupRows(groups: seq<ShareGroup>): (rows: seq<GroupRow>)
    ensures |rows| == |groups|
  {
    seq(|groups|, i requires 0 <= i < |groups| => GroupRow(i + 1, groups[i].name, i + 1))
  }

  /** The answers for one overlay: clearing; per section, its row and the update for each of its codes; the commit. */
  datatype Answers = Answers(cleared: bool, inserted: nat -> bool, updated: (nat, nat) -> bool, committed: bool)

  predicate SectionWorks(answers: Answers, g: nat, n: nat) {
    answers.inserted(g) && forall k :: 0 <= k < n ==> answers.updated(g, k)
  }

  predicate SectionsWork(answers: Answers, groups: seq<ShareGroup>, n: nat)
    requires n <= |groups|
  {
    if n == 0 then true
    else SectionsWork(answers, groups, n - 1) && SectionWorks(answers, n - 1, |groups[n - 1].codes|)
  }

  lemma {:induction false} FailureStays(answers: Answers, groups: seq<ShareGroup>, m: nat, n: nat)
    requires m <= n <= |groups| && !SectionsWork(answers, groups, m)
    ensures !SectionsWork(answers, groups, n)
  {
    if m < n {
      FailureStays(answers, groups, m, n - 1);
    }
  }

  class GroupTable {
    var rows: seq<Share>
    var groupRows: seq<GroupRow>

    constructor (rows: seq<Share>, groupRows: seq<GroupRow>)
      ensures this.rows == rows && this.groupRows == groupRows
    {
      this.rows, this.groupRows := rows, groupRows;
    }

    /** `UPDATE share SET group_id = id` for each code of one group. */
    method AssignGroup(rows0: seq<Share>, rows1: seq<Share>, codes: seq<string>, id: nat)
      returns (rows2: seq<Share>, dormant: seq<string>)
      requires |rows1| == |rows0| && forall i :: 0 <= i < |rows0| ==> rows1[i].code == rows0[i].code
      ensures |rows2| == |rows1|
      ensures forall i :: 0 <= i < |rows1| ==>
              rows2[i] == if rows1[i].code in codes then rows1[i].(group := Group(id)) else rows1[i]
      ensures dormant == CodesWithout(rows0, codes)
    {
      rows2, dormant := rows1, [];
      for k := 0 to |codes|
        invariant |rows2| == |rows1|
        invariant forall i :: 0 <= i < |rows1| ==>
                    rows2[i] == if rows1[i].code in codes[..k] then rows1[i].(group := Group(id)) else rows1[i]
        invariant dormant == CodesWithout(rows0, codes[..k])
      {
        assert codes[..k + 1][..k] == codes[..k];
        assert codes[..k + 1] == codes[..k] + [codes[k]];
        var matched := HasCode(rows2, codes[k]);
        SameCodes(rows0, rows2, codes[k]);
        rows2 := UpdateWhere(rows2, codes[k], (s: Share) => s.(group := Group(id)));
        if !matched {
          dormant := dormant + [codes[k]];
        }
      }
      assert codes[..|codes|] == codes;
    }

    /** One transaction: clear every group, then assign section by section. A failure changes nothing. */
    method ApplyGroups(groups: seq<ShareGroup>, answers: Answers) returns (ok: bool, dormant: seq<string>)
      modifies this
      ensures ok <==> answers.cleared && SectionsWork(answers, groups, |groups|) && answers.committed
      ensures !ok ==> rows == old(rows) && groupRows == old(groupRows) && dormant == []
      ensures ok ==> Assigned(old(rows), rows, groups, |groups|)
      ensures ok ==> groupRows == GroupRows(groups) && dormant == Dormant(old(rows), groups, |groups|)
    {
      ok, dormant := answers.cleared, [];
      var found: seq<string>, pending: seq<GroupRow> := [], [];
      var working := seq(|rows|, i requires 0 <= i < |rows| reads this => rows[i].(group := NoGroup));
      var g := 0;
      while g < |groups| && ok
        invariant g <= |groups| && rows == old(rows) && groupRows == old(groupRows)
        invariant ok <==> answers.cleared && SectionsWork(answers, groups, g)
        invariant ok ==> Assigned(rows, working, groups, g)
        invariant ok ==> pending == GroupRows(groups)[..g] && found == Dormant(rows, groups, g)
        decreases |groups| - g
      {
        ok := SectionWorks(answers, g, |groups[g].codes|);
        if ok {
          pending := pending + [GroupRow(g + 1, groups[g].name, g + 1)];
          var more;
          working, more := AssignGroup(rows, working, groups[g].codes, g + 1);
          found := found + more;
        }
        g := g + 1;
      }
      if !ok {
        if answers.cleared {
          FailureStays(answers, groups, g, |groups|);
        }
      } else {
        assert GroupRows(groups)[..|groups|] == GroupRows(groups);
        ok := answers.committed;
        if ok {
          rows, groupRows, dormant := working, pending, found;
        }
      }
    }
  }

  // ----- end to end -----

  /** A code is in the section owning it, and in no other, once. */
  lemma GroupHolds(lines: seq<Line>, groups: seq<ShareGroup>, g: nat, code: string)
    requires GroupsRead(lines, |lines|, groups) && g < |groups|
    ensures code in groups[g].codes <==> Owner(lines, |lines|, code) == In(g)
    ensures NoRepeats(groups[g].codes)
  {
    MembersExact(lines, |lines|, g, code);
  }

  lemma ParsedDisjoint(lines: seq<Line>, groups: seq<ShareGroup>)
    requires GroupsRead(lines, |lines|, groups)
    ensures DisjointGroups(groups)
    ensures forall g :: 0 <= g < |groups| ==> NoRepeats(groups[g].codes)
  {
    forall g | 0 <= g < |groups| ensures NoRepeats(groups[g].codes) {
      GroupHolds(lines, groups, g, "");
    }
    forall g, h, c | 0 <= g < h < |groups| && c in groups[g].codes
      ensures c !in groups[h].codes
    {
      GroupHolds(lines, groups, g, c);
      GroupHolds(lines, groups, h, c);
    }
  }

  lemma {:induction false} GroupIdOwner(lines: seq<Line>, groups: seq<ShareGroup>, n: nat, code: string)
    requires GroupsRead(lines, |lines|, groups) && n <= |groups|
    ensures var owner := Owner(lines, |lines|, code);
            GroupId(groups, n, code) == if owner.In? && owner.index < n then Group(owner.index + 1) else NoGroup
  {
    if n > 0 {
      GroupIdOwner(lines, groups, n - 1, code);
      GroupHolds(lines, groups, n - 1, code);
    }
  }

  lemma FinalGroup(lines: seq<Line>, groups: seq<ShareGroup>, code: string)
    requires GroupsRead(lines, |lines|, groups)
    ensures var owner := Owner(lines, |lines|, code);
            GroupId(groups, |groups|, code) == if owner.In? then Group(owner.index + 1) else NoGroup
  {
    GroupIdOwner(lines, groups, |groups|, code);
    OwnerInRange(lines, |lines|, code);
  }

  /**
   After reading and applying an overlay, a share's group is the last section naming it, or none,
   whatever it was before.
   */
  lemma OverlayDecides(lines: seq<Line>, groups: seq<ShareGroup>, rows: seq<Share>, rows': seq<Share>, i: nat)
    requires GroupsRead(lines, |lines|, groups) && Assigned(rows, rows', groups, |groups|) && i < |rows|
    ensures var owner := Owner(lines, |lines|, rows[i].code);
            rows'[i] == rows[i].(group := if owner.In? then Group(owner.index + 1) else NoGroup)
  {
    FinalGroup(lines, groups, rows[i].code);
    assert rows'[i] == rows[i].(group := GroupId(groups, |groups|, rows[i].code));
  }
}
