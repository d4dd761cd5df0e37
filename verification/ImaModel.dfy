/**
  Links, groups and classes of the IMA group discovery of `lch/util/imascan.c`.
 */
module ImaModel {
  type byte = b: int | 0 <= b < 256

  /** The bytes of an ICP cell that the discovery looks at. */
  datatype Icp = Icp(
    ver: int, imaId: int, statusCtrlInd: int, grpStatusCtrl: int, txTimingInfo: int,
    txTestCtrl: int, txTestPattern: int, rxTestPattern: int, linkStatusCtrl: seq<int>, ifsn: byte)

  /** A physical link; without an ICP cell its pointer is NULL. */
  datatype Link = Silent(phyNr: int) | Heard(phyNr: int, icp: Icp)

  /** A run of `linkNum` entries of the link array from `index` on. */
  datatype Group = Group(index: nat, linkNum: nat, ok: bool)

  /** What links are sorted by; the first eight also split groups. */
  datatype Field =
    | Ver | ImaId | StatusCtrlInd | GrpStatusCtrl | TxTimingInfo
    | TxTestCtrl | TxTestPattern | RxTestPattern | LinkStatusCtrl | Ifsn | PhyLink

  const FIELDS: seq<Field> := [Ver, ImaId, StatusCtrlInd, GrpStatusCtrl, TxTimingInfo,
                               TxTestCtrl, TxTestPattern, RxTestPattern]

  /** Comparing byte by byte from the first is comparing these numbers. */
  function Number(bytes: seq<int>): int {
    if bytes == [] then 0 else 256 * Number(bytes[..|bytes| - 1]) + bytes[|bytes| - 1]
  }

  /** Lists of bytes compare as the first bytes in which they differ. */
  lemma {:induction false} NumberCompares(a: seq<int>, b: seq<int>, k: nat)
    requires |a| == |b| && k < |a| && a[..k] == b[..k] && a[k] < b[k]
    requires forall i :: 0 <= i < |a| ==> 0 <= a[i] < 256 && 0 <= b[i] < 256
    ensures Number(a) < Number(b)
    decreases |a|
  {
    var n := |a| - 1;
    if k < n {
      assert a[..n][..k] == a[..k] && b[..n][..k] == b[..k];
      NumberCompares(a[..n], b[..n], k);
    } else {
      assert a[..n] == b[..n];
    }
  }

  /** The value a comparison routine sees; a link without an ICP cell sorts behind every version. */
  function Value(f: Field, l: Link): int {
    if f.PhyLink? then l.phyNr
    else if l.Silent? then 256
    else match f
      case Ver => l.icp.ver
      case ImaId => l.icp.imaId
      case StatusCtrlInd => l.icp.statusCtrlInd
      case GrpStatusCtrl => l.icp.grpStatusCtrl
      case TxTimingInfo => l.icp.txTimingInfo
      case TxTestCtrl => l.icp.txTestCtrl
      case TxTestPattern => l.icp.txTestPattern
      case RxTestPattern => l.icp.rxTestPattern
      case LinkStatusCtrl => Number(l.icp.linkStatusCtrl)
      case Ifsn => l.icp.ifsn
      case PhyLink => l.phyNr
  }

  /** The first `m` of the eight fields. */
  function Key(m: nat, l: Link): (k: seq<int>)
    requires m <= |FIELDS|
    ensures |k| == m
  {
    if m == 0 then [] else Key(m - 1, l) + [Value(FIELDS[m - 1], l)]
  }

  lemma KeySplits(m: nat, x: Link, y: Link)
    requires m < |FIELDS|
    ensures Key(m + 1, x) == Key(m + 1, y) <==>
            Key(m, x) == Key(m, y) && Value(FIELDS[m], x) == Value(FIELDS[m], y)
  {
    assert Key(m + 1, x)[..m] == Key(m, x) && Key(m + 1, y)[..m] == Key(m, y);
    assert Key(m + 1, x)[m] == Value(FIELDS[m], x) && Key(m + 1, y)[m] == Value(FIELDS[m], y);
  }

  // ----- Cells: the contents of the groups -----

  predicate Uniform(c: seq<Link>, m: nat)
    requires m <= |FIELDS|
  {
    forall x, y :: x in c && y in c ==> Key(m, x) == Key(m, y)
  }

  predicate Apart(c: seq<Link>, d: seq<Link>, m: nat)
    requires m <= |FIELDS|
  {
    forall x, y :: x in c && y in d ==> Key(m, x) != Key(m, y)
  }

  predicate AllApart(cells: seq<seq<Link>>, m: nat)
    requires m <= |FIELDS|
  {
    forall i, j :: 0 <= i < j < |cells| ==> Apart(cells[i], cells[j], m)
  }

  predicate NonEmpty(cells: seq<seq<Link>>) {
    forall i :: 0 <= i < |cells| ==> cells[i] != []
  }

  /** Groups are the classes of the first `k` fields, and the first `i` groups those of one more. */
  predicate Progress(cells: seq<seq<Link>>, k: nat, i: nat)
    requires k < |FIELDS|
  {
    && NonEmpty(cells) && AllApart(cells, k + 1) && i <= |cells|
    && (forall j :: 0 <= j < i ==> Uniform(cells[j], k + 1))
    && (forall j :: i <= j < |cells| ==> Uniform(cells[j], k))
  }

  /** Each cell is a class of the links with respect to the first `m` fields. */
  predicate AreClasses(cells: seq<seq<Link>>, m: nat)
    requires m <= |FIELDS|
  {
    && NonEmpty(cells) && AllApart(cells, m)
    && (forall j :: 0 <= j < |cells| ==> Uniform(cells[j], m))
  }

  lemma FinerApart(cells: seq<seq<Link>>, k: nat)
    requires k < |FIELDS| && AreClasses(cells, k)
    ensures Progress(cells, k, 0)
  {
    forall i, j | 0 <= i < j < |cells|
      ensures Apart(cells[i], cells[j], k + 1)
    {
      forall x, y | x in cells[i] && y in cells[j]
        ensures Key(k + 1, x) != Key(k + 1, y)
      {
        assert Apart(cells[i], cells[j], k);
        KeySplits(k, x, y);
      }
    }
  }

  // ----- Sorting -----

  predicate Ordered(f: Field, s: seq<Link>) {
    forall i, j :: 0 <= i < j < |s| ==> Value(f, s[i]) <= Value(f, s[j])
  }

  /** What `qsort` promises: the same links, in order. */
  predicate SortedFrom(f: Field, t: seq<Link>, s: seq<Link>) {
    Ordered(f, t) && multiset(t) == multiset(s)
  }

  lemma SameLinks(t: seq<Link>, s: seq<Link>)
    requires multiset(t) == multiset(s)
    ensures |t| == |s|
    ensures forall x :: x in t <==> x in s
  {
    assert |t| == |multiset(t)| && |s| == |multiset(s)|;
    forall x
      ensures x in t <==> x in s
    {
      assert x in t <==> x in multiset(t);
      assert x in s <==> x in multiset(s);
    }
  }

  predicate OneValue(f: Field, c: seq<Link>) {
    forall x, y :: x in c && y in c ==> Value(f, x) == Value(f, y)
  }

  predicate Below(f: Field, c: seq<Link>, d: seq<Link>) {
    forall x, y :: x in c && y in d ==> Value(f, x) < Value(f, y)
  }

  /** What one round of a split pass does to a cell: it stays, sorted, or is cut behind its smallest value. */
  datatype Round = Kept(front: seq<Link>) | Cut(front: seq<Link>, back: seq<Link>)

  predicate Proper(f: Field, c: seq<Link>, round: Round) {
    match round
    case Kept(front) => SortedFrom(f, front, c) && OneValue(f, front)
    case Cut(front, back) =>
      && SortedFrom(f, front + back, c) && front != [] && back != []
      && OneValue(f, front) && Below(f, front, back)
  }

  /** A cut appends the rest of the cell as a new group at the end of the list. */
  function Apply(cells: seq<seq<Link>>, i: nat, round: Round): seq<seq<Link>>
    requires i < |cells|
  {
    match round
    case Kept(front) => cells[i := front]
    case Cut(front, back) => cells[i := front] + [back]
  }

  lemma PartsOf(f: Field, c: seq<Link>, round: Round)
    requires Proper(f, c, round)
    ensures forall x :: x in round.front ==> x in c
    ensures round.Cut? ==> forall x :: x in round.back ==> x in c
    ensures c != [] ==> round.front != []
  {
    match round
    case Kept(front) => SameLinks(front, c);
    case Cut(front, back) =>
      SameLinks(front + back, c);
      assert forall x :: x in front + back <==> x in front || x in back;
  }

  lemma FinerUniform(k: nat, c: seq<Link>, front: seq<Link>)
    requires k < |FIELDS| && Uniform(c, k) && OneValue(FIELDS[k], front)
    requires forall x :: x in front ==> x in c
    ensures Uniform(front, k + 1)
  {
    forall x, y | x in front && y in front
      ensures Key(k + 1, x) == Key(k + 1, y)
    {
      KeySplits(k, x, y);
    }
  }

  lemma CutApart(k: nat, front: seq<Link>, back: seq<Link>)
    requires k < |FIELDS| && Below(FIELDS[k], front, back)
    ensures Apart(front, back, k + 1)
  {
    forall x, y | x in front && y in back
      ensures Key(k + 1, x) != Key(k + 1, y)
    {
      KeySplits(k, x, y);
    }
  }

  /** A round moves the pass on by one group. */
  lemma RoundProgresses(cells: seq<seq<Link>>, k: nat, i: nat, round: Round)
    requires k < |FIELDS| && i < |cells| && Progress(cells, k, i) && Proper(FIELDS[k], cells[i], round)
    ensures Progress(Apply(cells, i, round), k, i + 1)
  {
    var now := Apply(cells, i, round);
    PartsOf(FIELDS[k], cells[i], round);
    FinerUniform(k, cells[i], round.front);
    if round.Cut? {
      CutApart(k, round.front, round.back);
    }
    forall a, b | 0 <= a < b < |now|
      ensures Apart(now[a], now[b], k + 1)
    {
      if b < |cells| {
        assert Apart(cells[a], cells[b], k + 1);
      } else if a != i {
        if a < i {
          assert Apart(cells[a], cells[i], k + 1);
        } else {
          assert Apart(cells[i], cells[a], k + 1);
        }
      }
    }
  }

  lemma PassDone(cells: seq<seq<Link>>, k: nat)
    requires k < |FIELDS| && Progress(cells, k, |cells|)
    ensures AreClasses(cells, k + 1)
  {}

  // ----- Counting classes -----

  /** The different keys among some links. */
  function Keys(m: nat, links: seq<Link>): set<seq<int>>
    requires m <= |FIELDS|
  {
    set x | x in links :: Key(m, x)
  }

  function Flat(cells: seq<seq<Link>>): seq<Link> {
    if cells == [] then [] else Flat(cells[..|cells| - 1]) + cells[|cells| - 1]
  }

  /** Groups that differ in their keys are at most as many as the keys, and as many if each has one key. */
  lemma {:induction false} CellsAndKeys(cells: seq<seq<Link>>, m: nat)
    requires m <= |FIELDS| && NonEmpty(cells) && AllApart(cells, m)
    ensures |cells| <= |Keys(m, Flat(cells))|
    ensures AreClasses(cells, m) ==> |cells| == |Keys(m, Flat(cells))|
    decreases |cells|
  {
    if cells != [] {
      var front, last := cells[..|cells| - 1], cells[|cells| - 1];
      CellsAndKeys(front, m);
      var old_, new_ := Keys(m, Flat(front)), Keys(m, last);
      assert Keys(m, Flat(cells)) == old_ + new_ by {
        assert forall x :: x in Flat(cells) <==> x in Flat(front) || x in last;
      }
      LastApart(front, last, m);
      assert Key(m, last[0]) in new_;
      DisjointSizes(old_, new_);
      Nonzero(new_, Key(m, last[0]));
      if AreClasses(cells, m) {
        assert AreClasses(front, m);
        assert new_ == {Key(m, last[0])};
      }
    }
  }

  lemma {:induction false} LastApart(front: seq<seq<Link>>, last: seq<Link>, m: nat)
    requires m <= |FIELDS| && forall i :: 0 <= i < |front| ==> Apart(front[i], last, m)
    ensures Keys(m, Flat(front)) !! Keys(m, last)
    decreases |front|
  {
    if front != [] {
      var rest, c := front[..|front| - 1], front[|front| - 1];
      LastApart(rest, last, m);
      assert forall x :: x in Flat(front) <==> x in Flat(rest) || x in c;
    }
  }

  lemma DisjointSizes<T>(a: set<T>, b: set<T>)
    requires a !! b
    ensures |a + b| == |a| + |b|
  {}

  lemma Nonzero<T>(a: set<T>, x: T)
    requires x in a
    ensures |a| >= 1
  {}

  /** One more field never merges classes. */
  lemma FinerKeys(k: nat, links: seq<Link>)
    requires k < |FIELDS|
    ensures |Keys(k, links)| <= |Keys(k + 1, links)|
  {
    var fine := Keys(k + 1, links);
    var cut := set y | y in fine :: y[..k];
    forall y | y in Keys(k, links)
      ensures y in cut
    {
      var x :| x in links && Key(k, x) == y;
      assert Key(k + 1, x) in fine && Key(k + 1, x)[..k] == y;
    }
    ImageSize(k, fine);
    SubsetSize(Keys(k, links), cut);
  }

  lemma {:induction false} ImageSize(k: nat, fine: set<seq<int>>)
    requires forall y :: y in fine ==> |y| >= k
    ensures |set y | y in fine :: y[..k]| <= |fine|
    decreases |fine|
  {
    if fine != {} {
      var y :| y in fine;
      var rest := fine - {y};
      ImageSize(k, rest);
      assert (set z | z in fine :: z[..k]) == (set z | z in rest :: z[..k]) + {y[..k]};
    }
  }

  lemma {:induction false} SubsetSize<T>(a: set<T>, b: set<T>)
    requires a <= b
    ensures |a| <= |b|
    decreases |a|
  {
    if a != {} {
      var x :| x in a;
      SubsetSize(a - {x}, b - {x});
    }
  }
}
