/**
  The passes of `lch/util/imascan.c` over the link array and the group list.
 */
module ImaScan {
  import opened ImaModel
  import opened ImaFields

  const MAX_LNK_NUM := 256
  const MAX_GRP_NUM := 128

  // ----- Groups as ranges of the link array -----

  predicate Within(g: Group, p: nat) {
    g.index <= p < g.index + g.linkNum
  }

  /** The groups are non-empty, lie in the first `n` links and do not overlap. */
  predicate Ranges(groups: seq<Group>, n: nat) {
    && (forall i :: 0 <= i < |groups| ==> groups[i].linkNum > 0 && groups[i].index + groups[i].linkNum <= n)
    && (forall i, j :: 0 <= i < j < |groups| ==>
          groups[i].index + groups[i].linkNum <= groups[j].index ||
            groups[j].index + groups[j].linkNum <= groups[i].index)
  }

  /** Every one of the first `n` links is in some group. */
  predicate Covers(groups: seq<Group>, n: nat) {
    forall p :: 0 <= p < n ==> InSome(groups, p)
  }

  predicate InSome(groups: seq<Group>, p: nat) {
    exists j :: 0 <= j < |groups| && Within(groups[j], p)
  }

  function Cell(links: seq<Link>, g: Group): seq<Link>
    requires g.index + g.linkNum <= |links|
  {
    links[g.index..g.index + g.linkNum]
  }

  function Cells(links: seq<Link>, groups: seq<Group>): (c: seq<seq<Link>>)
    requires Ranges(groups, |links|)
    ensures |c| == |groups|
  {
    seq(|groups|, i requires 0 <= i < |groups| => Cell(links, groups[i]))
  }

  function CutAt(groups: seq<Group>, i: nat, j: nat): seq<Group>
    requires i < |groups| && Within(groups[i], j)
  {
    var g := groups[i];
    groups[i := g.(linkNum := j - g.index)] + [Group(j, g.linkNum - j + g.index, false)]
  }

  lemma CutKeepsRanges(groups: seq<Group>, i: nat, j: nat, n: nat)
    requires i < |groups| && Within(groups[i], j) && j > groups[i].index && Ranges(groups, n)
    ensures Ranges(CutAt(groups, i, j), n)
    ensures Covers(groups, n) ==> Covers(CutAt(groups, i, j), n)
  {
    var now := CutAt(groups, i, j);
    if Covers(groups, n) {
      forall p | 0 <= p < n
        ensures InSome(now, p)
      {
        assert InSome(groups, p);
        var k :| 0 <= k < |groups| && Within(groups[k], p);
        var l := if k == i && p >= j then |groups| else k;
        assert 0 <= l < |now| && Within(now[l], p);
      }
    }
  }

  lemma CutCells(links: seq<Link>, groups: seq<Group>, i: nat, j: nat)
    requires i < |groups| && Within(groups[i], j) && j > groups[i].index && Ranges(groups, |links|)
    ensures Ranges(CutAt(groups, i, j), |links|)
    ensures var c := Cell(links, groups[i]);
      Cells(links, CutAt(groups, i, j)) ==
      Apply(Cells(links, groups), i, Cut(c[..j - groups[i].index], c[j - groups[i].index..]))
  {
    CutKeepsRanges(groups, i, j, |links|);
    var c, d := Cell(links, groups[i]), j - groups[i].index;
    var now, want := Cells(links, CutAt(groups, i, j)), Apply(Cells(links, groups), i, Cut(c[..d], c[d..]));
    assert now[i] == links[groups[i].index..j] == c[..d];
    assert now[|groups|] == links[j..groups[i].index + groups[i].linkNum] == c[d..];
    forall k | 0 <= k < |groups| && k != i
      ensures now[k] == want[k]
    {
      assert CutAt(groups, i, j)[k] == groups[k];
    }
    assert |now| == |want|;
  }

  /** Up to place `j`, a group has the value of its first link. */
  predicate AlikeUpTo(f: Field, links: seq<Link>, g: Group, j: nat)
    requires g.index + g.linkNum <= |links|
  {
    g.index < j <= g.index + g.linkNum &&
    forall p :: g.index <= p < j ==> Value(f, links[p]) == Value(f, links[g.index])
  }

  /** A sorted group is cut at `j`, where its value changes first. */
  lemma CutPlan(f: Field, links: seq<Link>, groups: seq<Group>, i: nat, j: nat) returns (round: Round)
    requires i < |groups| && Ranges(groups, |links|) && Ordered(f, Cell(links, groups[i]))
    requires AlikeUpTo(f, links, groups[i], j) && Within(groups[i], j)
    requires Value(f, links[j]) != Value(f, links[groups[i].index])
    ensures Proper(f, Cell(links, groups[i]), round)
    ensures Ranges(CutAt(groups, i, j), |links|)
    ensures Cells(links, CutAt(groups, i, j)) == Apply(Cells(links, groups), i, round)
    ensures Covers(groups, |links|) ==> Covers(CutAt(groups, i, j), |links|)
  {
    var g, s := groups[i], Cell(links, groups[i]);
    var d := j - g.index;
    CellAlike(f, links, g, j);
    assert s[d] == links[j];
    CutProper(f, s, d);
    CutCells(links, groups, i, j);
    CutKeepsRanges(groups, i, j, |links|);
    round := Cut(s[..d], s[d..]);
  }

  /** A sorted group of one value stays whole. */
  lemma KeepPlan(f: Field, links: seq<Link>, groups: seq<Group>, i: nat) returns (round: Round)
    requires i < |groups| && Ranges(groups, |links|) && Ordered(f, Cell(links, groups[i]))
    requires AlikeUpTo(f, links, groups[i], groups[i].index + groups[i].linkNum)
    ensures Proper(f, Cell(links, groups[i]), round)
    ensures Apply(Cells(links, groups), i, round) == Cells(links, groups)
  {
    CellAlike(f, links, groups[i], groups[i].index + groups[i].linkNum);
    AllOne(f, Cell(links, groups[i]));
    round := Kept(Cell(links, groups[i]));
  }

  lemma CellAlike(f: Field, links: seq<Link>, g: Group, j: nat)
    requires g.index + g.linkNum <= |links| && AlikeUpTo(f, links, g, j)
    ensures var s := Cell(links, g);
      |s| > 0 && forall p :: 0 <= p < j - g.index ==> Value(f, s[p]) == Value(f, s[0])
  {
    var s := Cell(links, g);
    assert forall p :: 0 <= p < |s| ==> s[p] == links[g.index + p];
  }

  /** Sorting inside one group changes no other. */
  lemma SortCells(now: seq<Link>, was: seq<Link>, groups: seq<Group>, i: nat)
    requires i < |groups| && |now| == |was| && Ranges(groups, |was|)
    requires now[..groups[i].index] == was[..groups[i].index]
    requires now[groups[i].index + groups[i].linkNum..] == was[groups[i].index + groups[i].linkNum..]
    ensures Cells(now, groups) == Cells(was, groups)[i := Cell(now, groups[i])]
  {
    forall k | 0 <= k < |groups| && k != i
      ensures Cell(now, groups[k]) == Cell(was, groups[k])
    {
      var g, h := groups[i], groups[k];
      forall p | h.index <= p < h.index + h.linkNum
        ensures now[p] == was[p]
      {
        if p < g.index {
          assert now[..g.index][p] == was[..g.index][p];
        } else {
          var e := g.index + g.linkNum;
          assert now[e..][p - e] == was[e..][p - e];
        }
      }
    }
  }

  /** Groups that cover a prefix hold just its links. */
  lemma {:induction false} FlatHas(cells: seq<seq<Link>>, x: Link)
    ensures x in Flat(cells) <==> exists i :: 0 <= i < |cells| && x in cells[i]
    decreases |cells|
  {
    if cells != [] {
      var front, last := cells[..|cells| - 1], cells[|cells| - 1];
      FlatHas(front, x);
      forall i | 0 <= i < |cells| && x in cells[i]
        ensures x in Flat(cells)
      {
        if i < |front| {
          assert x in front[i];
        }
      }
      if x in Flat(cells) && x !in last {
        assert x in Flat(front);
        var i :| 0 <= i < |front| && x in front[i];
        assert x in cells[i];
      }
    }
  }

  lemma CoveredLinks(links: seq<Link>, groups: seq<Group>, m: nat)
    requires m <= |FIELDS| && Ranges(groups, |links|) && Covers(groups, |links|)
    ensures Keys(m, Flat(Cells(links, groups))) == Keys(m, links)
  {
    var cells := Cells(links, groups);
    forall x
      ensures x in Flat(cells) <==> x in links
    {
      FlatHas(cells, x);
      if x in links {
        var i := CellOf(links, groups, x);
      }
    }
  }

  lemma CellOf(links: seq<Link>, groups: seq<Group>, x: Link) returns (i: nat)
    requires Ranges(groups, |links|) && Covers(groups, |links|) && x in links
    ensures i < |groups| && x in Cells(links, groups)[i]
  {
    var p :| 0 <= p < |links| && links[p] == x;
    assert InSome(groups, p);
    i :| 0 <= i < |groups| && Within(groups[i], p);
    assert Cell(links, groups[i])[p - groups[i].index] == x;
  }

  // ----- The library's sort -----

  function Insert(f: Field, x: Link, s: seq<Link>): seq<Link>
    decreases |s|
  {
    if s == [] || Value(f, x) <= Value(f, s[0]) then [x] + s else [s[0]] + Insert(f, x, s[1..])
  }

  lemma {:induction false} InsertSorts(f: Field, x: Link, s: seq<Link>)
    requires Ordered(f, s)
    ensures Ordered(f, Insert(f, x, s)) && multiset(Insert(f, x, s)) == multiset(s) + multiset{x}
    decreases |s|
  {
    if s == [] || Value(f, x) <= Value(f, s[0]) {
      InsertFirst(f, x, s);
    } else {
      RestOrdered(f, s);
      InsertSorts(f, x, s[1..]);
      InsertOrdered(f, x, s, Insert(f, x, s[1..]));
    }
  }

  lemma RestOrdered(f: Field, s: seq<Link>)
    requires s != [] && Ordered(f, s)
    ensures Ordered(f, s[1..])
  {
    forall i, j | 0 <= i < j < |s[1..]|
      ensures Value(f, s[1..][i]) <= Value(f, s[1..][j])
    {
      assert s[1..][i] == s[i + 1] && s[1..][j] == s[j + 1];
    }
  }

  lemma InsertFirst(f: Field, x: Link, s: seq<Link>)
    requires Ordered(f, s) && (s != [] ==> Value(f, x) <= Value(f, s[0]))
    ensures Ordered(f, [x] + s)
  {
    forall i, j | 0 <= i < j < |[x] + s|
      ensures Value(f, ([x] + s)[i]) <= Value(f, ([x] + s)[j])
    {
      assert ([x] + s)[j] == s[j - 1];
      assert i > 0 ==> ([x] + s)[i] == s[i - 1];
    }
  }

  lemma InsertOrdered(f: Field, x: Link, s: seq<Link>, t: seq<Link>)
    requires s != [] && Ordered(f, s) && Value(f, s[0]) < Value(f, x)
    requires Ordered(f, t) && multiset(t) == multiset(s[1..]) + multiset{x}
    ensures Ordered(f, [s[0]] + t) && multiset([s[0]] + t) == multiset(s) + multiset{x}
  {
    assert s == [s[0]] + s[1..];
    forall k | 0 <= k < |t|
      ensures Value(f, s[0]) <= Value(f, t[k])
    {
      assert t[k] in multiset(t);
      assert t[k] == x || t[k] in s[1..];
    }
  }

  method Sorted(f: Field, s: seq<Link>) returns (t: seq<Link>)
    ensures SortedFrom(f, t, s)
  {
    t := [];
    var k := 0;
    while k < |s|
      invariant k <= |s| && SortedFrom(f, t, s[..k])
    {
      InsertSorts(f, s[k], t);
      t := Insert(f, s[k], t);
      assert s[..k + 1] == s[..k] + [s[k]];
      k := k + 1;
    }
    assert s[..k] == s;
  }

  /** The same links in every group, in any order. */
  predicate SameCells(now: seq<seq<Link>>, was: seq<seq<Link>>) {
    |now| == |was| && forall j :: 0 <= j < |was| ==> multiset(now[j]) == multiset(was[j])
  }

  lemma SameCellsKeep(now: seq<seq<Link>>, was: seq<seq<Link>>, m: nat)
    requires m <= |FIELDS| && SameCells(now, was) && AreClasses(was, m)
    ensures AreClasses(now, m)
  {
    forall j | 0 <= j < |was|
      ensures forall x :: x in now[j] <==> x in was[j]
      ensures now[j] != []
    {
      SameLinks(now[j], was[j]);
    }
    forall i, j | 0 <= i < j < |now|
      ensures Apart(now[i], now[j], m)
    {
      assert Apart(was[i], was[j], m);
    }
    forall j | 0 <= j < |now|
      ensures Uniform(now[j], m)
    {
      assert Uniform(was[j], m);
    }
  }

  predicate AllHeard(links: seq<Link>) {
    forall p :: 0 <= p < |links| ==> links[p].Heard?
  }

  lemma HeardStays(now: seq<Link>, was: seq<Link>)
    requires multiset(now) == multiset(was) && AllHeard(was)
    ensures AllHeard(now)
  {
    SameLinks(now, was);
    forall p | 0 <= p < |now|
      ensures now[p].Heard?
    {
      assert now[p] in was;
    }
  }

  /** Groups are the classes of the first `k` fields and leave no link out. */
  predicate Exact(links: seq<Link>, groups: seq<Group>, k: nat)
    requires k <= |FIELDS| && Ranges(groups, |links|)
  {
    Covers(groups, |links|) && AreClasses(Cells(links, groups), k)
  }

  function Classes(links: seq<Link>, k: nat): nat
    requires k <= |FIELDS|
  {
    |Keys(k, links)|
  }

  /** Exact groups are as many as there are classes. */
  lemma ExactCount(links: seq<Link>, groups: seq<Group>, k: nat)
    requires k <= |FIELDS| && Ranges(groups, |links|) && Exact(links, groups, k)
    ensures |groups| == Classes(links, k)
  {
    CellsAndKeys(Cells(links, groups), k);
    CoveredLinks(links, groups, k);
  }

  lemma SameClasses(now: seq<Link>, was: seq<Link>, k: nat)
    requires k <= |FIELDS| && multiset(now) == multiset(was)
    ensures Classes(now, k) == Classes(was, k)
  {
    SameLinks(now, was);
    assert Keys(k, now) == Keys(k, was);
  }

  class Scan {
    const links: array<Link>
    const groups: array<Group>
    var grpNum: nat

    /** The first `num` groups lie in the first `n` links, all of which have an ICP cell. */
    ghost predicate Shaped(num: nat, n: nat)
      reads links, groups
    {
      && links.Length == MAX_LNK_NUM && groups.Length == MAX_GRP_NUM
      && num <= MAX_GRP_NUM && n <= MAX_LNK_NUM
      && Ranges(groups[..num], n) && AllHeard(links[..n])
    }

    ghost function Content(num: nat, n: nat): seq<seq<Link>>
      requires Shaped(num, n)
      reads links, groups
    {
      Cells(links[..n], groups[..num])
    }

    /** `qsort` on part of the link array. */
    method SortRange(f: Field, lo: nat, num: nat)
      requires lo + num <= links.Length
      modifies links
      ensures links[..lo] == old(links[..lo]) && links[lo + num..] == old(links[lo + num..])
      ensures SortedFrom(f, links[lo..lo + num], old(links[lo..lo + num]))
    {
      var t := Sorted(f, links[lo..lo + num]);
      SameLinks(t, links[lo..lo + num]);
      forall p | 0 <= p < num {
        links[lo + p] := t[p];
      }
      assert links[lo..lo + num] == t;
    }

    /** Sorts the links of one group. */
    method SortGroup(f: Field, i: nat, num: nat, n: nat)
      requires Shaped(num, n) && i < num
      modifies links
      ensures Shaped(num, n)
      ensures Content(num, n) == old(Content(num, n))[i := Content(num, n)[i]]
      ensures SortedFrom(f, Content(num, n)[i], old(Content(num, n)[i]))
      ensures multiset(links[..n]) == old(multiset(links[..n])) && links[n..] == old(links[n..])
    {
      var lo, len := groups[i].index, groups[i].linkNum;
      ghost var was := links[..];
      assert Content(num, n)[i] == links[lo..lo + len];
      SortRange(f, lo, len);
      ghost var now := links[..];
      assert now[lo..lo + len] == links[lo..lo + len] && was[lo..lo + len] == old(links[lo..lo + len]);
      SortInside(now, was, lo, lo + len, n);
      HeardStays(now[..n], was[..n]);
      assert links[..n] == now[..n];
      SortCells(now[..n], was[..n], groups[..num], i);
      assert Content(num, n)[i] == links[lo..lo + len];
    }

    /** The first place of the group whose value differs from that of the first link, or the end. */
    method FirstDifferent(f: Field, lo: nat, len: nat) returns (j: nat)
      requires len > 0 && lo + len <= links.Length
      ensures lo < j <= lo + len
      ensures forall p :: lo <= p < j ==> Value(f, links[p]) == Value(f, links[lo])
      ensures j < lo + len ==> Value(f, links[j]) != Value(f, links[lo])
    {
      var val1 := Value(f, links[lo]);
      j := lo + 1;
      while j < lo + len
        invariant lo < j <= lo + len
        invariant forall p :: lo <= p < j ==> Value(f, links[p]) == val1
      {
        var val2 := Value(f, links[j]);
        if val2 != val1 {
          break;
        }
        j := j + 1;
      }
    }

    /** Cut group `i` at place `j`: the rest becomes a new group at the end. */
    method CutGroup(i: nat, j: nat, num: nat)
      requires groups.Length == MAX_GRP_NUM && i < num < MAX_GRP_NUM && !groups[num].ok
      requires Within(groups[i], j)
      modifies groups
      ensures groups[..num + 1] == CutAt(old(groups[..num]), i, j)
      ensures forall k :: 0 <= k < MAX_GRP_NUM ==> groups[k].ok == old(groups[k].ok)
    {
      var lo, len := groups[i].index, groups[i].linkNum;
      groups[num] := groups[num].(index := j, linkNum := len - j + lo);
      groups[i] := groups[i].(linkNum := j - lo);
    }

    /** Cut a sorted group behind its smallest value. */
    method CutSorted(f: Field, i: nat, num: nat, n: nat) returns (next: nat, ghost round: Round)
      requires Shaped(num, n) && i < num < MAX_GRP_NUM && !groups[num].ok
      requires Ordered(f, Content(num, n)[i])
      modifies groups
      ensures Shaped(next, n) && num <= next <= num + 1
      ensures Proper(f, old(Content(num, n)[i]), round)
      ensures Content(next, n) == Apply(old(Content(num, n)), i, round)
      ensures old(Covers(groups[..num], n)) ==> Covers(groups[..next], n)
      ensures forall k :: 0 <= k < MAX_GRP_NUM ==> groups[k].ok == old(groups[k].ok)
    {
      var lo, len := groups[i].index, groups[i].linkNum;
      ghost var now, was := links[..n], groups[..num];
      var j := FirstDifferent(f, lo, len);
      assert AlikeUpTo(f, now, was[i], j);
      if j < lo + len {
        round := CutPlan(f, now, was, i, j);
        CutGroup(i, j, num);
        next := num + 1;
      } else {
        round := KeepPlan(f, now, was, i);
        next := num;
      }
    }

    /** One round of a split pass: sort group `i` and cut it where its value changes first. */
    method SplitRound(f: Field, i: nat, num: nat, n: nat) returns (next: nat, ghost round: Round)
      requires Shaped(num, n) && i < num < MAX_GRP_NUM && !groups[num].ok
      modifies links, groups
      ensures Shaped(next, n) && num <= next <= num + 1
      ensures Proper(f, old(Content(num, n)[i]), round)
      ensures Content(next, n) == Apply(old(Content(num, n)), i, round)
      ensures old(Covers(groups[..num], n)) ==> Covers(groups[..next], n)
      ensures multiset(links[..n]) == old(multiset(links[..n])) && links[n..] == old(links[n..])
      ensures forall k :: 0 <= k < MAX_GRP_NUM ==> groups[k].ok == old(groups[k].ok)
    {
      ghost var cells := Content(num, n);
      SortGroup(f, i, num, n);
      ghost var sorted := Content(num, n);
      next, round := CutSorted(f, i, num, n);
      SortThenCut(f, cells, sorted, i, round);
    }

    ghost predicate Unmarked()
      reads groups
    {
      groups.Length == MAX_GRP_NUM && forall k :: 0 <= k < MAX_GRP_NUM ==> !groups[k].ok
    }

    /** A round as the pass on field `k` sees it. */
    method SplitStep(k: nat, i: nat, num: nat, n: nat) returns (next: nat)
      requires k < |FIELDS| && Shaped(num, n) && i < num < MAX_GRP_NUM && Unmarked()
      modifies links, groups
      ensures Shaped(next, n) && num <= next <= num + 1 && Unmarked()
      ensures old(OnTheWay(links[..n], groups[..num], k, i)) ==> OnTheWay(links[..n], groups[..next], k, i + 1)
      ensures multiset(links[..n]) == old(multiset(links[..n])) && links[n..] == old(links[n..])
    {
      ghost var cells, onTheWay := Content(num, n), OnTheWay(links[..n], groups[..num], k, i);
      ghost var round;
      next, round := SplitRound(FIELDS[k], i, num, n);
      if onTheWay {
        RoundProgresses(cells, k, i, round);
      }
    }

    /** Between passes: some groups, none of them marked yet. */
    ghost predicate Ready(n: nat)
      reads this, links, groups
    {
      Shaped(grpNum, n) && 0 < grpNum < MAX_GRP_NUM && Unmarked()
    }

    /** A pass on field `k` over `num` groups has come to group `i`. */
    ghost predicate Scanning(k: nat, i: nat, num: nat, n: nat, exact: bool, was: seq<Link>, silent: seq<Link>)
      requires k < |FIELDS|
      reads this, links, groups
    {
      && Shaped(num, n) && grpNum <= num && Unmarked()
      && multiset(links[..n]) == multiset(was) && links[n..] == silent
      && (exact ==> OnTheWay(links[..n], groups[..num], k, i))
    }

    method ScanNext(k: nat, i: nat, num: nat, n: nat, ghost exact: bool, ghost was: seq<Link>,
                    ghost silent: seq<Link>)
      returns (next: nat)
      requires k < |FIELDS| && i < num < MAX_GRP_NUM && Scanning(k, i, num, n, exact, was, silent)
      modifies links, groups
      ensures num <= next <= num + 1 && Scanning(k, i + 1, next, n, exact, was, silent)
    {
      next := SplitStep(k, i, num, n);
    }

    /** The groups after the pass, or as many as there can be. */
    method ScanGroups(k: nat, n: nat, ghost exact: bool, ghost was: seq<Link>, ghost silent: seq<Link>)
      returns (num: nat)
      requires k < |FIELDS| && grpNum < MAX_GRP_NUM && Scanning(k, 0, grpNum, n, exact, was, silent)
      modifies links, groups
      ensures Shaped(num, n) && grpNum <= num && Unmarked()
      ensures multiset(links[..n]) == multiset(was) && links[n..] == silent
      ensures exact ==> num <= Classes(was, k + 1)
      ensures exact && num < MAX_GRP_NUM ==>
        Exact(links[..n], groups[..num], k + 1) && num == Classes(was, k + 1)
    {
      num := grpNum;
      var i: nat := 0;
      while i < num && num < MAX_GRP_NUM
        invariant i <= num <= MAX_GRP_NUM && Scanning(k, i, num, n, exact, was, silent)
        decreases MAX_GRP_NUM - i
      {
        num := ScanNext(k, i, num, n, exact, was, silent);
        i := i + 1;
      }
      if exact {
        TooMany(links[..n], groups[..num], k, i, was);
        if num < MAX_GRP_NUM {
          AllSplit(links[..n], groups[..num], k, was);
        }
      }
    }

    /** A pass over a list that grows while it is scanned; it fails as soon as the list is full. */
    method Split(k: nat, n: nat) returns (ret: int)
      requires k < |FIELDS| && Ready(n)
      modifies this, links, groups
      ensures Ready(n) && (ret == 0 || ret == -1)
      ensures multiset(links[..n]) == old(multiset(links[..n])) && links[n..] == old(links[n..])
      ensures old(Exact(links[..n], groups[..grpNum], k)) ==>
        && (ret == 0 <==> Classes(old(links[..n]), k + 1) < MAX_GRP_NUM)
        && (ret == 0 ==> Exact(links[..n], groups[..grpNum], k + 1))
    {
      ghost var was, silent, exact := links[..n], links[n..], Exact(links[..n], groups[..grpNum], k);
      if exact {
        FinerApart(Cells(was, groups[..grpNum]), k);
      }
      var num := ScanGroups(k, n, exact, was, silent);
      if num >= MAX_GRP_NUM {
        RangesPrefix(groups[..num], grpNum, n);
        return -1;
      }
      grpNum := num;
      return 0;
    }

    method HeardToFront(n: nat)
      requires links.Length == MAX_LNK_NUM && n == HeardCount(links[..]) && Versions(links[..])
      modifies links
      ensures n <= MAX_LNK_NUM && AllHeard(links[..n]) && Versions(links[..n])
      ensures forall p :: n <= p < MAX_LNK_NUM ==> links[p].Silent?
      ensures multiset(links[..]) == old(multiset(links[..]))
    {
      ghost var was := links[..];
      SortRange(Ver, 0, MAX_LNK_NUM);
      assert links[..] == links[0..MAX_LNK_NUM] && was == was[0..MAX_LNK_NUM];
      HeardFirst(links[..], was);
      assert links[..][..n] == links[..n];
    }

    /** The first pass: move the links that heard a cell to the front, then split by version. */
    method SplitVer(n: nat) returns (ret: int)
      requires links.Length == MAX_LNK_NUM && Unmarked()
      requires 0 < n == HeardCount(links[..]) && Versions(links[..])
      requires grpNum == 1 && groups[0] == Group(0, n, false)
      modifies this, links, groups
      ensures ret == 0 && n <= MAX_LNK_NUM && Ready(n) && Exact(links[..n], groups[..grpNum], 1)
      ensures forall p :: n <= p < MAX_LNK_NUM ==> links[p].Silent?
      ensures multiset(links[..]) == old(multiset(links[..]))
    {
      HeardToFront(n);
      ghost var first := links[..];
      assert first[..n] == links[..n];
      WholeGroup(links[..n], groups[..1]);
      FinerApart(Content(1, n), 0);
      var num: nat, i: nat := grpNum, 0;
      while i < num
        invariant Shaped(num, n) && i <= num <= 2 && Unmarked() && (i == 0 ==> num == 1)
        invariant OnTheWay(links[..n], groups[..num], 0, i) && Versions(links[..n])
        invariant multiset(links[..n]) == multiset(first[..n]) && links[n..] == first[n..]
        invariant num == 2 ==> i >= 1 && OneValue(Ver, Content(num, n)[1])
        decreases 2 - i
      {
        num := SplitVerRound(i, num, n);
        i := i + 1;
        if num > MAX_GRP_NUM {
          return -1;
        }
      }
      AllSplit(links[..n], groups[..num], 0, links[..n]);
      SamePrefix(links[..], first, n);
      grpNum := num;
      return 0;
    }

    /** With two versions only, the second group is never cut. */
    method SplitVerRound(i: nat, num: nat, n: nat) returns (next: nat)
      requires Shaped(num, n) && i < num <= 2 && Unmarked() && Versions(links[..n])
      requires OnTheWay(links[..n], groups[..num], 0, i)
      requires num == 2 ==> i == 1 && OneValue(Ver, Content(num, n)[1])
      modifies links, groups
      ensures Shaped(next, n) && num <= next <= 2 && Unmarked()
      ensures OnTheWay(links[..n], groups[..next], 0, i + 1) && Versions(links[..n])
      ensures multiset(links[..n]) == old(multiset(links[..n])) && links[n..] == old(links[n..])
      ensures next == 2 ==> OneValue(Ver, Content(next, n)[1])
    {
      ghost var cells := Content(num, n);
      ghost var round;
      next, round := SplitRound(Ver, i, num, n);
      SameLinks(links[..n], old(links[..n]));
      RoundProgresses(cells, 0, i, round);
      PartsOf(Ver, cells[i], round);
      if i == 1 {
        NoCut(Ver, cells[1], round);
      } else if round.Cut? {
        SecondVersion(old(links[..n]), cells[0], round.front, round.back);
      }
    }

    /** A pass that only sorts: the last one, whose comparison takes every two links for equal, and the reorderings. */
    method SortGroups(f: Field, n: nat)
      requires Shaped(grpNum, n)
      modifies links
      ensures Shaped(grpNum, n)
      ensures SameCells(Content(grpNum, n), old(Content(grpNum, n)))
      ensures forall i :: 0 <= i < grpNum ==> Ordered(f, Content(grpNum, n)[i])
      ensures multiset(links[..n]) == old(multiset(links[..n])) && links[n..] == old(links[n..])
    {
      ghost var cells, heard, silent := Content(grpNum, n), multiset(links[..n]), links[n..];
      var i := 0;
      while i < grpNum
        invariant i <= grpNum && SortedUpTo(f, i, n, cells, heard, silent)
      {
        SortNext(f, i, n, cells, heard, silent);
        i := i + 1;
      }
    }

    ghost predicate SortedUpTo(f: Field, i: nat, n: nat, cells: seq<seq<Link>>, heard: multiset<Link>,
                               silent: seq<Link>)
      reads this, links, groups
    {
      && Shaped(grpNum, n) && SameCells(Content(grpNum, n), cells)
      && (forall j :: 0 <= j < i && j < grpNum ==> Ordered(f, Content(grpNum, n)[j]))
      && multiset(links[..n]) == heard && links[n..] == silent
    }

    method SortNext(f: Field, i: nat, n: nat, ghost cells: seq<seq<Link>>, ghost heard: multiset<Link>,
                    ghost silent: seq<Link>)
      requires i < grpNum && SortedUpTo(f, i, n, cells, heard, silent)
      modifies links
      ensures SortedUpTo(f, i + 1, n, cells, heard, silent)
    {
      SortGroup(f, i, grpNum, n);
    }

    method Check(g: Group) returns (fine: bool)
      requires g.linkNum > 0 && g.index + g.linkNum <= links.Length
      requires Ordered(Ifsn, links[g.index..g.index + g.linkNum])
      ensures fine <==> InStep(links[g.index..g.index + g.linkNum])
    {
      var val1 := Value(Ifsn, links[g.index]);
      var val2 := Value(Ifsn, links[g.index + g.linkNum - 1]);
      EndsTell(links[g.index..g.index + g.linkNum]);
      fine := val2 - val1 <= 1;
    }

    /** A group is fine when its frame sequence numbers, sorted, end at most one above where they start. */
    method MarkGroups(n: nat)
      requires Shaped(grpNum, n) && Unmarked()
      requires forall i :: 0 <= i < grpNum ==> Ordered(Ifsn, Content(grpNum, n)[i])
      modifies groups
      ensures Shaped(grpNum, n) && Content(grpNum, n) == old(Content(grpNum, n))
      ensures Covers(groups[..grpNum], n) == old(Covers(groups[..grpNum], n))
      ensures forall i :: 0 <= i < grpNum ==> (groups[i].ok <==> InStep(Content(grpNum, n)[i]))
    {
      ghost var was := groups[..grpNum];
      MarkEach(n, Content(grpNum, n));
      SamePlacesSame(links[..n], groups[..grpNum], was);
    }

    method MarkEach(n: nat, ghost cells: seq<seq<Link>>)
      requires Shaped(grpNum, n) && Unmarked() && cells == Content(grpNum, n)
      requires forall i :: 0 <= i < grpNum ==> Ordered(Ifsn, cells[i])
      modifies groups
      ensures SamePlaces(groups[..grpNum], old(groups[..grpNum]))
      ensures forall i :: 0 <= i < grpNum ==> (groups[i].ok <==> InStep(cells[i]))
    {
      ghost var was := groups[..grpNum];
      var i := 0;
      while i < grpNum
        invariant MarkedUpTo(cells, was, i)
      {
        MarkOne(i, cells, was);
        i := i + 1;
      }
    }

    /** The first `i` groups are marked, the others not yet. */
    ghost predicate MarkedUpTo(cells: seq<seq<Link>>, was: seq<Group>, i: nat)
      reads this, groups
    {
      && groups.Length == MAX_GRP_NUM && i <= grpNum <= MAX_GRP_NUM && |cells| == grpNum
      && SamePlaces(groups[..grpNum], was)
      && (forall j :: 0 <= j < i ==> (groups[j].ok <==> InStep(cells[j])))
      && (forall j :: i <= j < grpNum ==> !groups[j].ok)
    }

    method MarkOne(i: nat, ghost cells: seq<seq<Link>>, ghost was: seq<Group>)
      requires MarkedUpTo(cells, was, i) && i < grpNum && Ranges(was, links.Length)
      requires cells[i] == links[was[i].index..was[i].index + was[i].linkNum] && Ordered(Ifsn, cells[i])
      requires cells[i] != [] && OnlyHeard(cells[i])
      modifies groups
      ensures MarkedUpTo(cells, was, i + 1)
    {
      assert groups[..grpNum][i].index == was[i].index && groups[..grpNum][i].linkNum == was[i].linkNum;
      var fine := Check(groups[i]);
      if fine {
        groups[i] := groups[i].(ok := true);
      }
    }

    method CountHeard() returns (n: nat)
      requires links.Length == MAX_LNK_NUM
      ensures n == HeardCount(links[..])
    {
      n := 0;
      var i := 0;
      while i < links.Length
        invariant i <= links.Length && n == HeardCount(links[..i])
      {
        assert links[..i + 1][..i] == links[..i];
        if links[i].Heard? {
          n := n + 1;
        }
        i := i + 1;
      }
      assert links[..i] == links[..];
    }

    /** The eight splitting passes, in order; a failing pass is only logged. */
    method SplitAll(n: nat)
      requires links.Length == MAX_LNK_NUM && Unmarked()
      requires 0 < n == HeardCount(links[..]) && Versions(links[..])
      requires grpNum == 1 && groups[0] == Group(0, n, false)
      modifies this, links, groups
      ensures n <= MAX_LNK_NUM && Ready(n)
      ensures Exact(links[..n], groups[..grpNum], |FIELDS|) <==> Classes(links[..n], |FIELDS|) < MAX_GRP_NUM
      ensures forall p :: n <= p < MAX_LNK_NUM ==> links[p].Silent?
      ensures multiset(links[..]) == old(multiset(links[..]))
    {
      var ret := SplitVer(n);
      ghost var first := links[..];
      SplitRest(n);
      SamePrefix(links[..], first, n);
    }

    /** The passes after the first. */
    method SplitRest(n: nat)
      requires Ready(n) && Exact(links[..n], groups[..grpNum], 1)
      modifies this, links, groups
      ensures Ready(n)
      ensures Exact(links[..n], groups[..grpNum], |FIELDS|) <==> Classes(links[..n], |FIELDS|) < MAX_GRP_NUM
      ensures multiset(links[..n]) == old(multiset(links[..n])) && links[n..] == old(links[n..])
    {
      ghost var was := links[..n];
      ghost var silent := links[n..];
      var k := 1;
      while k < |FIELDS|
        invariant 1 <= k <= |FIELDS| && Going(was, silent, n, k)
      {
        NextPass(k, n, was, silent);
        k := k + 1;
      }
      AllPassed(links[..n], groups[..grpNum], was);
    }

    /** `k` passes are done; if in the end all classes fit, the groups are exact so far. */
    ghost predicate Going(was: seq<Link>, silent: seq<Link>, n: nat, k: nat)
      requires k <= |FIELDS|
      reads this, links, groups
    {
      && Ready(n) && (Classes(was, |FIELDS|) < MAX_GRP_NUM ==> Exact(links[..n], groups[..grpNum], k))
      && multiset(links[..n]) == multiset(was) && links[n..] == silent
    }

    method NextPass(k: nat, n: nat, ghost was: seq<Link>, ghost silent: seq<Link>)
      requires k < |FIELDS| && Going(was, silent, n, k)
      modifies this, links, groups
      ensures Going(was, silent, n, k + 1)
    {
      FewerClasses(links[..n], was, k + 1);
      var ret := Split(k, n);
    }

    /** The whole discovery; -1 if no link heard an ICP cell. */
    method Result() returns (ret: int, ghost n: nat)
      requires links.Length == MAX_LNK_NUM && groups.Length == MAX_GRP_NUM && Versions(links[..])
      modifies this, links, groups
      ensures n == HeardCount(old(links[..])) && (ret == if n == 0 then -1 else 0)
      ensures multiset(links[..]) == old(multiset(links[..]))
      ensures ret == 0 ==>
        && Shaped(grpNum, n) && (forall p :: n <= p < MAX_LNK_NUM ==> links[p].Silent?)
        && (Covers(groups[..grpNum], n) && Grouped(Content(grpNum, n)) <==>
            |Configurations(links[..n])| < MAX_GRP_NUM)
        && (forall i :: 0 <= i < grpNum ==>
             (groups[i].ok <==> InStepModulo(Content(grpNum, n)[i]) && !Wraps(Content(grpNum, n)[i])))
        && (forall i :: 0 <= i < grpNum ==> ByPhyLink(Content(grpNum, n)[i]))
    {
      forall i | 0 <= i < MAX_GRP_NUM {
        groups[i] := Group(0, 0, false);
      }
      assert links[..] == old(links[..]);
      var num := CountHeard();
      if num == 0 {
        return -1, 0;
      }
      groups[0] := Group(0, num, false);
      grpNum := 1;
      assert links[..] == old(links[..]);
      SplitAndOrder(num);
      Discovered(links[..num], groups[..grpNum]);
      return 0, num;
    }

    /** All passes, the marks and the final order. */
    method SplitAndOrder(n: nat)
      requires links.Length == MAX_LNK_NUM && Unmarked()
      requires 0 < n == HeardCount(links[..]) && Versions(links[..])
      requires grpNum == 1 && groups[0] == Group(0, n, false)
      modifies this, links, groups
      ensures Shaped(grpNum, n) && (forall p :: n <= p < MAX_LNK_NUM ==> links[p].Silent?)
      ensures Exact(links[..n], groups[..grpNum], |FIELDS|) <==> Classes(links[..n], |FIELDS|) < MAX_GRP_NUM
      ensures forall i :: 0 <= i < grpNum ==> (groups[i].ok <==> InStep(Content(grpNum, n)[i]))
      ensures forall i :: 0 <= i < grpNum ==> Ordered(PhyLink, Content(grpNum, n)[i])
      ensures multiset(links[..]) == old(multiset(links[..]))
    {
      SplitAll(n);
      ghost var split := links[..];
      Order(n);
      SamePrefix(links[..], split, n);
      SameClasses(links[..n], split[..n], |FIELDS|);
    }

    /** Sort by link status, mark the groups in step, and leave each sorted by physical link. */
    method Order(n: nat)
      requires Ready(n)
      modifies links, groups
      ensures Shaped(grpNum, n)
      ensures Exact(links[..n], groups[..grpNum], |FIELDS|) == old(Exact(links[..n], groups[..grpNum], |FIELDS|))
      ensures forall i :: 0 <= i < grpNum ==> (groups[i].ok <==> InStep(Content(grpNum, n)[i]))
      ensures forall i :: 0 <= i < grpNum ==> Ordered(PhyLink, Content(grpNum, n)[i])
      ensures multiset(links[..n]) == old(multiset(links[..n])) && links[n..] == old(links[n..])
    {
      ghost var cells := Content(grpNum, n);
      SortGroups(LinkStatusCtrl, n);
      SortGroups(Ifsn, n);
      MarkGroups(n);
      ghost var marked := Content(grpNum, n);
      SortGroups(PhyLink, n);
      ghost var last := Content(grpNum, n);
      SameInStep(last, marked);
      SameExact(last, cells, |FIELDS|);
    }
  }

  predicate ByPhyLink(c: seq<Link>) {
    forall i, j :: 0 <= i < j < |c| ==> c[i].phyNr <= c[j].phyNr
  }

  /** What the passes leave, in terms of the cells. */
  lemma Discovered(links: seq<Link>, groups: seq<Group>)
    requires Ranges(groups, |links|) && AllHeard(links)
    requires Exact(links, groups, |FIELDS|) <==> Classes(links, |FIELDS|) < MAX_GRP_NUM
    requires forall i :: 0 <= i < |groups| ==> (groups[i].ok <==> InStep(Cells(links, groups)[i]))
    requires forall i :: 0 <= i < |groups| ==> Ordered(PhyLink, Cells(links, groups)[i])
    ensures Covers(groups, |links|) && Grouped(Cells(links, groups)) <==> |Configurations(links)| < MAX_GRP_NUM
    ensures forall i :: 0 <= i < |groups| ==>
      (groups[i].ok <==> InStepModulo(Cells(links, groups)[i]) && !Wraps(Cells(links, groups)[i]))
    ensures forall i :: 0 <= i < |groups| ==> ByPhyLink(Cells(links, groups)[i])
  {
    MarkedExactly(links, groups);
    ExactlyGrouped(links, groups);
  }

  lemma ExactlyGrouped(links: seq<Link>, groups: seq<Group>)
    requires Ranges(groups, |links|) && AllHeard(links)
    ensures Exact(links, groups, |FIELDS|) <==> Covers(groups, |links|) && Grouped(Cells(links, groups))
    ensures Classes(links, |FIELDS|) == |Configurations(links)|
  {
    forall i | 0 <= i < |groups|
      ensures OnlyHeard(Cells(links, groups)[i])
    {
      HeardCell(links, groups[i]);
    }
    ClassesAreGroups(Cells(links, groups));
    AsManyKeys(links);
  }

  lemma HeardCell(links: seq<Link>, g: Group)
    requires g.index + g.linkNum <= |links| && AllHeard(links)
    ensures OnlyHeard(Cell(links, g))
  {}

  /** The frame sequence numbers of a group differ by at most one. */
  predicate InStep(c: seq<Link>) {
    forall x, y :: x in c && y in c ==> Value(Ifsn, x) - Value(Ifsn, y) <= 1
  }

  /** Frame sequence numbers count modulo 256: every link has heard frame `s` or the one after it. */
  predicate InFrame(c: seq<Link>, s: int) {
    forall x :: x in c ==> x.Heard? && (x.icp.ifsn == s || x.icp.ifsn == (s + 1) % 256)
  }

  predicate InStepModulo(c: seq<Link>) {
    exists s :: 0 <= s < 256 && InFrame(c, s)
  }

  /** Some links have heard the last number and others the first one after it. */
  predicate Wraps(c: seq<Link>) {
    (exists x :: x in c && x.Heard? && x.icp.ifsn == 255) && exists y :: y in c && y.Heard? && y.icp.ifsn == 0
  }

  /** The difference that is taken tells which groups are in step, but for those that wrap. */
  lemma InStepExactly(c: seq<Link>)
    requires c != [] && AllHeard(c)
    ensures InStep(c) <==> InStepModulo(c) && !Wraps(c)
  {
    HeardNumbers(c);
    if InStep(c) {
      var i := Lowest(c);
      assert InFrame(c, Value(Ifsn, c[i]));
    }
    if InStepModulo(c) && !Wraps(c) {
      var s :| 0 <= s < 256 && InFrame(c, s);
    }
  }

  lemma HeardNumbers(c: seq<Link>)
    requires AllHeard(c)
    ensures forall x :: x in c ==> x.Heard? && 0 <= Value(Ifsn, x) == x.icp.ifsn < 256
  {}

  lemma {:induction false} Lowest(c: seq<Link>) returns (i: nat)
    requires c != []
    ensures i < |c| && forall x :: x in c ==> Value(Ifsn, c[i]) <= Value(Ifsn, x)
    decreases |c|
  {
    var last := |c| - 1;
    if last == 0 {
      i := 0;
    } else {
      i := Lowest(c[..last]);
      assert c == c[..last] + [c[last]];
      if Value(Ifsn, c[last]) < Value(Ifsn, c[i]) {
        i := last;
      }
    }
  }

  lemma MarkedExactly(links: seq<Link>, groups: seq<Group>)
    requires Ranges(groups, |links|) && AllHeard(links)
    requires forall i :: 0 <= i < |groups| ==> (groups[i].ok <==> InStep(Cells(links, groups)[i]))
    ensures forall i :: 0 <= i < |groups| ==>
      (groups[i].ok <==> InStepModulo(Cells(links, groups)[i]) && !Wraps(Cells(links, groups)[i]))
  {
    forall i | 0 <= i < |groups|
      ensures groups[i].ok <==> InStepModulo(Cells(links, groups)[i]) && !Wraps(Cells(links, groups)[i])
    {
      InStepExactly(Cells(links, groups)[i]);
    }
  }

  /** A group that wraps is in step and not found to be. */
  lemma WrapUnseen(c: seq<Link>)
    requires AllHeard(c) && Wraps(c)
    ensures !InStep(c)
    ensures InStepModulo(c) <==> forall x :: x in c ==> x.icp.ifsn == 255 || x.icp.ifsn == 0
  {
    assert c != [];
    InStepExactly(c);
    var x :| x in c && x.Heard? && x.icp.ifsn == 255;
    var y :| y in c && y.Heard? && y.icp.ifsn == 0;
    if InStepModulo(c) {
      var s :| 0 <= s < 256 && InFrame(c, s);
      assert s == 255;
    }
    if forall z :: z in c ==> z.icp.ifsn == 255 || z.icp.ifsn == 0 {
      assert InFrame(c, 255);
    }
  }

  /** Two links, one a frame ahead of the other. */
  function Pair(icp: Icp): seq<Link> {
    [Heard(1, icp.(ifsn := 255)), Heard(2, icp.(ifsn := 0))]
  }

  lemma PairUnseen(icp: Icp)
    ensures InStepModulo(Pair(icp)) && !InStep(Pair(icp))
  {
    var c := Pair(icp);
    assert c[0] in c && c[1] in c;
    assert c[0].icp.ifsn == 255 && c[1].icp.ifsn == 0;
    WrapUnseen(c);
  }

  lemma EndsTell(c: seq<Link>)
    requires Ordered(Ifsn, c) && c != []
    ensures InStep(c) <==> Value(Ifsn, c[|c| - 1]) - Value(Ifsn, c[0]) <= 1
  {
    assert c[0] in c && c[|c| - 1] in c;
    forall x | x in c
      ensures Value(Ifsn, c[0]) <= Value(Ifsn, x) <= Value(Ifsn, c[|c| - 1])
    {
      var p :| 0 <= p < |c| && c[p] == x;
    }
  }

  predicate SamePlaces(now: seq<Group>, was: seq<Group>) {
    && |now| == |was|
    && forall i :: 0 <= i < |was| ==> now[i].index == was[i].index && now[i].linkNum == was[i].linkNum
  }

  lemma SamePlacesSame(links: seq<Link>, now: seq<Group>, was: seq<Group>)
    requires SamePlaces(now, was) && Ranges(was, |links|)
    ensures Ranges(now, |links|) && Cells(links, now) == Cells(links, was)
    ensures Covers(now, |links|) == Covers(was, |links|)
  {
    forall p
      ensures InSome(now, p) == InSome(was, p)
    {
      assert forall j :: 0 <= j < |was| ==> Within(now[j], p) == Within(was[j], p);
    }
  }

  lemma SameInStep(now: seq<seq<Link>>, was: seq<seq<Link>>)
    requires SameCells(now, was)
    ensures forall i :: 0 <= i < |was| ==> InStep(now[i]) == InStep(was[i])
  {
    forall i | 0 <= i < |was|
      ensures InStep(now[i]) == InStep(was[i])
    {
      SameLinks(now[i], was[i]);
    }
  }

  lemma SameExact(now: seq<seq<Link>>, was: seq<seq<Link>>, m: nat)
    requires m <= |FIELDS| && SameCells(now, was)
    ensures AreClasses(now, m) == AreClasses(was, m)
  {
    if AreClasses(was, m) {
      SameCellsKeep(now, was, m);
    } else if AreClasses(now, m) {
      SameCellsKeep(was, now, m);
    }
  }

  lemma FewerClasses(now: seq<Link>, was: seq<Link>, k: nat)
    requires multiset(now) == multiset(was) && k <= |FIELDS|
    ensures Classes(now, k) <= Classes(was, |FIELDS|)
  {
    FinerClasses(was, k);
    SameClasses(now, was, k);
  }

  lemma {:induction false} FinerClasses(links: seq<Link>, k: nat)
    requires k <= |FIELDS|
    ensures Classes(links, k) <= Classes(links, |FIELDS|)
    decreases |FIELDS| - k
  {
    if k < |FIELDS| {
      FinerKeys(k, links);
      FinerClasses(links, k + 1);
    }
  }

  /** ICP cells carry version 1.0 or 1.1 and nothing else. */
  predicate Versions(links: seq<Link>) {
    forall l :: l in links && l.Heard? ==> l.icp.ver == 1 || l.icp.ver == 3
  }

  function HeardCount(links: seq<Link>): nat {
    if links == [] then 0 else HeardCount(links[..|links| - 1]) + (if links[|links| - 1].Heard? then 1 else 0)
  }

  lemma {:induction false} CountIsMultiset(now: seq<Link>, was: seq<Link>)
    requires multiset(now) == multiset(was)
    ensures HeardCount(now) == HeardCount(was)
    decreases |now|
  {
    SameLinks(now, was);
    if now != [] {
      var last := |now| - 1;
      assert now[last] in was;
      var p :| 0 <= p < |was| && was[p] == now[last];
      assert now == now[..last] + [now[last]] + [] && now[..last] + [] == now[..last];
      Without(now, now[..last], now[last], []);
      assert was == was[..p] + [was[p]] + was[p + 1..];
      Without(was, was[..p], was[p], was[p + 1..]);
      Cancel(multiset(now[..last]), multiset(was[..p] + was[p + 1..]), now[last]);
      CountIsMultiset(now[..last], was[..p] + was[p + 1..]);
    }
  }

  lemma Cancel(a: multiset<Link>, b: multiset<Link>, x: Link)
    requires a + multiset{x} == b + multiset{x}
    ensures a == b
  {
    assert a == a + multiset{x} - multiset{x};
    assert b == b + multiset{x} - multiset{x};
  }

  /** A sequence without one of its links. */
  lemma Without(s: seq<Link>, a: seq<Link>, x: Link, b: seq<Link>)
    requires s == a + [x] + b
    ensures multiset(s) == multiset(a + b) + multiset{x}
    ensures HeardCount(s) == HeardCount(a + b) + (if x.Heard? then 1 else 0)
  {
    CountWithout(a, x, b);
    LinksWithout(a, x, b);
  }

  lemma LinksWithout(a: seq<Link>, x: Link, b: seq<Link>)
    ensures multiset(a + [x] + b) == multiset(a + b) + multiset{x}
  {}

  lemma CountWithout(a: seq<Link>, x: Link, b: seq<Link>)
    ensures HeardCount(a + [x] + b) == HeardCount(a + b) + (if x.Heard? then 1 else 0)
  {
    HeardJoins(a + [x], b);
    HeardJoins(a, [x]);
    HeardJoins(a, b);
  }

  lemma {:induction false} HeardJoins(a: seq<Link>, b: seq<Link>)
    ensures HeardCount(a + b) == HeardCount(a) + HeardCount(b)
    decreases |b|
  {
    if b == [] {
      assert a + b == a;
    } else {
      assert (a + b)[..|a + b| - 1] == a + b[..|b| - 1];
      HeardJoins(a, b[..|b| - 1]);
    }
  }

  /** Sorted by version, the links that heard a cell are the first ones. */
  lemma HeardFirst(now: seq<Link>, was: seq<Link>)
    requires SortedFrom(Ver, now, was) && Versions(was)
    ensures HeardCount(was) <= |now| && AllHeard(now[..HeardCount(was)]) && Versions(now)
    ensures forall p :: HeardCount(was) <= p < |now| ==> now[p].Silent?
  {
    CountIsMultiset(now, was);
    SameLinks(now, was);
    SortedHeard(now);
  }

  lemma {:induction false} SortedHeard(s: seq<Link>)
    requires Ordered(Ver, s) && Versions(s)
    ensures HeardCount(s) <= |s| && AllHeard(s[..HeardCount(s)])
    ensures forall p :: HeardCount(s) <= p < |s| ==> s[p].Silent?
    decreases |s|
  {
    if s != [] {
      var front, last := s[..|s| - 1], s[|s| - 1];
      SortedHeard(front);
      if last.Heard? {
        forall p | 0 <= p < |front|
          ensures front[p].Heard?
        {
          assert Value(Ver, s[p]) <= Value(Ver, last);
        }
      }
    }
  }

  lemma WholeGroup(links: seq<Link>, groups: seq<Group>)
    requires links != [] && |groups| == 1 && groups[0].index == 0 && groups[0].linkNum == |links|
    ensures Ranges(groups, |links|) && Exact(links, groups, 0)
  {
    forall p | 0 <= p < |links|
      ensures InSome(groups, p)
    {
      assert Within(groups[0], p);
    }
  }

  lemma CutDiffers(f: Field, c: seq<Link>, front: seq<Link>, back: seq<Link>)
    requires Proper(f, c, Cut(front, back))
    ensures !OneValue(f, c)
  {
    PartsOf(f, c, Cut(front, back));
    assert front[0] in c && back[0] in c && Value(f, front[0]) < Value(f, back[0]);
  }

  lemma NoCut(f: Field, c: seq<Link>, round: Round)
    requires Proper(f, c, round) && OneValue(f, c)
    ensures round.Kept? && OneValue(f, round.front)
  {
    if round.Cut? {
      CutDiffers(f, c, round.front, round.back);
    }
  }

  lemma SecondVersion(links: seq<Link>, c: seq<Link>, front: seq<Link>, back: seq<Link>)
    requires Versions(links) && AllHeard(links) && forall x :: x in c ==> x in links
    requires forall x :: x in front || x in back ==> x in c
    requires front != [] && Below(Ver, front, back)
    ensures OneValue(Ver, back)
  {
    forall y | y in back
      ensures Value(Ver, y) == 3
    {
      assert front[0] in links && y in links;
      assert Value(Ver, front[0]) < Value(Ver, y);
    }
  }

  lemma SamePrefix(now: seq<Link>, was: seq<Link>, n: nat)
    requires n <= |now| == |was| && multiset(now[..n]) == multiset(was[..n]) && now[n..] == was[n..]
    ensures multiset(now) == multiset(was)
  {
    assert now == now[..n] + now[n..] && was == was[..n] + was[n..];
  }

  /** In the middle of a pass: no link is left out and the first `i` groups are split. */
  predicate OnTheWay(links: seq<Link>, groups: seq<Group>, k: nat, i: nat)
    requires k < |FIELDS| && Ranges(groups, |links|)
  {
    Covers(groups, |links|) && Progress(Cells(links, groups), k, i)
  }

  lemma TooMany(links: seq<Link>, groups: seq<Group>, k: nat, i: nat, was: seq<Link>)
    requires k < |FIELDS| && Ranges(groups, |links|) && OnTheWay(links, groups, k, i)
    requires multiset(links) == multiset(was)
    ensures |groups| <= Classes(was, k + 1)
  {
    CellsAndKeys(Cells(links, groups), k + 1);
    CoveredLinks(links, groups, k + 1);
    SameClasses(links, was, k + 1);
  }

  lemma AllSplit(links: seq<Link>, groups: seq<Group>, k: nat, was: seq<Link>)
    requires k < |FIELDS| && Ranges(groups, |links|) && OnTheWay(links, groups, k, |groups|)
    requires multiset(links) == multiset(was)
    ensures Exact(links, groups, k + 1) && |groups| == Classes(was, k + 1)
  {
    PassDone(Cells(links, groups), k);
    ExactCount(links, groups, k + 1);
    SameClasses(links, was, k + 1);
  }

  /** After all passes over fewer groups than there can be. */
  lemma AllPassed(links: seq<Link>, groups: seq<Group>, was: seq<Link>)
    requires Ranges(groups, |links|) && |groups| < MAX_GRP_NUM && multiset(links) == multiset(was)
    requires Classes(was, |FIELDS|) < MAX_GRP_NUM ==> Exact(links, groups, |FIELDS|)
    ensures Exact(links, groups, |FIELDS|) <==> Classes(links, |FIELDS|) < MAX_GRP_NUM
  {
    SameClasses(links, was, |FIELDS|);
    if Exact(links, groups, |FIELDS|) {
      ExactCount(links, groups, |FIELDS|);
    }
  }

  lemma RangesPrefix(groups: seq<Group>, num: nat, n: nat)
    requires Ranges(groups, n) && num <= |groups|
    ensures Ranges(groups[..num], n)
  {}

  lemma AllOne(f: Field, s: seq<Link>)
    requires Ordered(f, s) && forall p :: 0 <= p < |s| ==> Value(f, s[p]) == Value(f, s[0])
    ensures Proper(f, s, Kept(s))
  {}

  lemma SortThenCut(f: Field, cells: seq<seq<Link>>, sorted: seq<seq<Link>>, i: nat, round: Round)
    requires i < |cells| && |sorted| == |cells| && sorted == cells[i := sorted[i]]
    requires SortedFrom(f, sorted[i], cells[i]) && Proper(f, sorted[i], round)
    ensures Proper(f, cells[i], round) && Apply(sorted, i, round) == Apply(cells, i, round)
  {}

  lemma SortInside(now: seq<Link>, was: seq<Link>, lo: nat, hi: nat, n: nat)
    requires |now| == |was| && lo <= hi <= n <= |was|
    requires now[..lo] == was[..lo] && now[hi..] == was[hi..]
    requires multiset(now[lo..hi]) == multiset(was[lo..hi])
    ensures multiset(now[..n]) == multiset(was[..n])
    ensures now[n..] == was[n..]
    ensures now[..n][..lo] == was[..n][..lo] && now[..n][hi..] == was[..n][hi..]
  {
    assert now[..n] == now[..lo] + now[lo..hi] + now[hi..][..n - hi];
    assert was[..n] == was[..lo] + was[lo..hi] + was[hi..][..n - hi];
    assert now[n..] == now[hi..][n - hi..] && was[n..] == was[hi..][n - hi..];
  }

  /** In a sorted cell the links before the first change share the smallest value. */
  lemma CutProper(f: Field, s: seq<Link>, d: nat)
    requires Ordered(f, s) && 0 < d < |s| && Value(f, s[d]) != Value(f, s[0])
    requires forall p :: 0 <= p < d ==> Value(f, s[p]) == Value(f, s[0])
    ensures Proper(f, s, Cut(s[..d], s[d..]))
  {
    assert s[..d] + s[d..] == s;
    assert Value(f, s[0]) < Value(f, s[d]);
    forall x, y | x in s[..d] && y in s[d..]
      ensures Value(f, x) < Value(f, y)
    {
      var q :| 0 <= q < |s[d..]| && s[d..][q] == y;
      assert y == s[d + q];
    }
  }
}
