/**
  The classes of the IMA group discovery of `lch/util/imascan.c` in terms of the ICP cells themselves: links belong
  together exactly if eight bytes of their cells agree.
 */
module ImaFields {
  import opened ImaModel

  predicate Agree(x: Icp, y: Icp) {
    && x.ver == y.ver && x.imaId == y.imaId && x.statusCtrlInd == y.statusCtrlInd
    && x.grpStatusCtrl == y.grpStatusCtrl && x.txTimingInfo == y.txTimingInfo
    && x.txTestCtrl == y.txTestCtrl && x.txTestPattern == y.txTestPattern && x.rxTestPattern == y.rxTestPattern
  }

  /** Keys are equal exactly if the eight bytes are. */
  lemma KeyIsFields(x: Link, y: Link)
    requires x.Heard? && y.Heard?
    ensures Key(|FIELDS|, x) == Key(|FIELDS|, y) <==> Agree(x.icp, y.icp)
  {
    KeySplits(0, x, y);
    KeySplits(1, x, y);
    KeySplits(2, x, y);
    KeySplits(3, x, y);
    KeySplits(4, x, y);
    KeySplits(5, x, y);
    KeySplits(6, x, y);
    KeySplits(7, x, y);
  }

  predicate OnlyHeard(c: seq<Link>) {
    forall x :: x in c ==> x.Heard?
  }

  /** Cells of links, each with some, and two links in the same cell exactly if their eight bytes agree. */
  predicate Grouped(cells: seq<seq<Link>>) {
    && (forall i :: 0 <= i < |cells| ==> cells[i] != [] && OnlyHeard(cells[i]))
    && forall i, j, x, y :: 0 <= i < |cells| && 0 <= j < |cells| && x in cells[i] && y in cells[j] ==>
      x.Heard? && y.Heard? && (Agree(x.icp, y.icp) <==> i == j)
  }

  lemma ClassesAreGroups(cells: seq<seq<Link>>)
    requires forall i :: 0 <= i < |cells| ==> OnlyHeard(cells[i])
    ensures AreClasses(cells, |FIELDS|) <==> Grouped(cells)
  {
    if AreClasses(cells, |FIELDS|) {
      forall i, j, x, y | 0 <= i < |cells| && 0 <= j < |cells| && x in cells[i] && y in cells[j]
        ensures x.Heard? && y.Heard? && (Agree(x.icp, y.icp) <==> i == j)
      {
        CellsApart(cells, i, j, x, y);
        KeyIsFields(x, y);
      }
    }
    if Grouped(cells) {
      GroupsAreClasses(cells);
    }
  }

  lemma CellsApart(cells: seq<seq<Link>>, i: nat, j: nat, x: Link, y: Link)
    requires AreClasses(cells, |FIELDS|) && i < |cells| && j < |cells| && x in cells[i] && y in cells[j]
    ensures Key(|FIELDS|, x) == Key(|FIELDS|, y) <==> i == j
  {
    if i < j {
      assert Apart(cells[i], cells[j], |FIELDS|);
    } else if j < i {
      assert Apart(cells[j], cells[i], |FIELDS|);
    } else {
      assert Uniform(cells[i], |FIELDS|);
    }
  }

  lemma GroupsAreClasses(cells: seq<seq<Link>>)
    requires Grouped(cells)
    ensures AreClasses(cells, |FIELDS|)
  {
    forall i, j | 0 <= i < j < |cells|
      ensures Apart(cells[i], cells[j], |FIELDS|)
    {
      forall x, y | x in cells[i] && y in cells[j]
        ensures Key(|FIELDS|, x) != Key(|FIELDS|, y)
      {
        KeyIsFields(x, y);
      }
    }
    forall i | 0 <= i < |cells|
      ensures Uniform(cells[i], |FIELDS|)
    {
      forall x, y | x in cells[i] && y in cells[i]
        ensures Key(|FIELDS|, x) == Key(|FIELDS|, y)
      {
        KeyIsFields(x, y);
      }
    }
  }

  // ----- Counting -----

  /** The eight bytes of a cell. */
  datatype Configuration = Configuration(
    ver: int, imaId: int, statusCtrlInd: int, grpStatusCtrl: int,
    txTimingInfo: int, txTestCtrl: int, txTestPattern: int, rxTestPattern: int)

  function ConfigurationOf(icp: Icp): Configuration {
    Configuration(icp.ver, icp.imaId, icp.statusCtrlInd, icp.grpStatusCtrl,
                  icp.txTimingInfo, icp.txTestCtrl, icp.txTestPattern, icp.rxTestPattern)
  }

  /** The different configurations that some links have heard. */
  function Configurations(links: seq<Link>): set<Configuration> {
    set x | x in links && x.Heard? :: ConfigurationOf(x.icp)
  }

  /** As many keys as configurations. */
  lemma {:induction false} AsManyKeys(links: seq<Link>)
    requires OnlyHeard(links)
    ensures |Keys(|FIELDS|, links)| == |Configurations(links)|
    decreases |links|
  {
    if links != [] {
      var last := |links| - 1;
      var front, x := links[..last], links[last];
      AsManyKeys(front);
      assert links == front + [x];
      OneMoreLink(front, x);
      SeenBefore(front, x);
      OneMore(Keys(|FIELDS|, front), Key(|FIELDS|, x));
      OneMore(Configurations(front), ConfigurationOf(x.icp));
    }
  }

  lemma OneMore<T>(s: set<T>, x: T)
    ensures |s + {x}| == |s| + if x in s then 0 else 1
  {
    if x in s {
      assert s + {x} == s;
    }
  }

  lemma OneMoreLink(front: seq<Link>, x: Link)
    requires x.Heard?
    ensures Keys(|FIELDS|, front + [x]) == Keys(|FIELDS|, front) + {Key(|FIELDS|, x)}
    ensures Configurations(front + [x]) == Configurations(front) + {ConfigurationOf(x.icp)}
  {
    InBoth(front, x);
  }

  lemma InBoth(front: seq<Link>, x: Link)
    ensures forall y :: y in front + [x] <==> y in front || y == x
  {}

  lemma SeenBefore(front: seq<Link>, x: Link)
    requires OnlyHeard(front) && x.Heard?
    ensures Key(|FIELDS|, x) in Keys(|FIELDS|, front) <==> ConfigurationOf(x.icp) in Configurations(front)
  {
    if Key(|FIELDS|, x) in Keys(|FIELDS|, front) {
      var y :| y in front && Key(|FIELDS|, y) == Key(|FIELDS|, x);
      KeyIsFields(x, y);
    }
    if ConfigurationOf(x.icp) in Configurations(front) {
      var y :| y in front && y.Heard? && ConfigurationOf(y.icp) == ConfigurationOf(x.icp);
      KeyIsFields(x, y);
    }
  }
}
