/**
  The search order that the users of `lch/util/avl.c` ask of a tree through the
  comparison function they pass to `avl_create`.
 */
module AvlOrder {
  import opened AvlModel

  type Comparison = (int, int) -> int

  /** What `avl.h` demands of a comparison: -1, 0 or 1, and consistent with an order. */
  ghost predicate Comparator(cmp: Comparison) {
    (forall x, y :: Signed(cmp, x, y)) && (forall x, y, z :: Transitive(cmp, x, y, z))
  }

  ghost predicate Signed(cmp: Comparison, x: int, y: int) {
    -1 <= cmp(x, y) <= 1 && cmp(x, y) == -cmp(y, x)
  }

  ghost predicate Transitive(cmp: Comparison, x: int, y: int, z: int) {
    cmp(x, y) <= 0 && cmp(y, z) <= 0 ==> cmp(x, z) <= 0
  }

  /** The user data of nodes listed in order. */
  ghost function Keys(s: seq<Node>): (ks: seq<int>)
    reads Elems(s)`data
    ensures |ks| == |s| && forall i :: 0 <= i < |s| ==> ks[i] == s[i].data
  {
    KeysUpTo(s, |s|)
  }

  ghost function KeysUpTo(s: seq<Node>, n: nat): (ks: seq<int>)
    requires n <= |s|
    reads Elems(s)`data
    ensures |ks| == n && forall i :: 0 <= i < n ==> ks[i] == s[i].data
  {
    if n == 0 then [] else KeysUpTo(s, n - 1) + [s[n - 1].data]
  }

  lemma KeysInsert(s: seq<Node>, p: nat, n: Node)
    requires p <= |s|
    ensures Keys(s[..p] + [n] + s[p..]) == Keys(s)[..p] + [n.data] + Keys(s)[p..]
  {}

  lemma KeysWithout(s: seq<Node>, p: nat)
    requires p < |s|
    ensures Keys(s[..p] + s[p + 1..]) == Keys(s)[..p] + Keys(s)[p + 1..]
  {}

  lemma KeyOf(s: seq<Node>, n: Node) returns (i: nat)
    requires n in s
    ensures i < |s| && s[i] == n && Keys(s)[i] == n.data
  {
    i :| 0 <= i < |s| && s[i] == n;
  }

  ghost predicate Ascending(s: seq<int>, cmp: Comparison) {
    forall i, j :: 0 <= i < j < |s| ==> cmp(s[i], s[j]) < 0
  }

  /** What comes before position `lo` is below `value`, what comes from `hi` on is above it. */
  ghost predicate Bounds(s: seq<int>, lo: int, hi: int, value: int, cmp: Comparison) {
    0 <= lo <= hi <= |s| && (forall i :: 0 <= i < lo ==> cmp(value, s[i]) > 0) &&
    (forall i :: hi <= i < |s| ==> cmp(value, s[i]) < 0)
  }

  lemma Flip(cmp: Comparison, x: int, y: int)
    requires Comparator(cmp)
    ensures -1 <= cmp(x, y) <= 1 && cmp(x, y) == -cmp(y, x)
  {
    assert Signed(cmp, x, y);
  }

  lemma Less(cmp: Comparison, x: int, y: int, z: int)
    requires Comparator(cmp) && cmp(x, y) < 0 && cmp(y, z) < 0
    ensures cmp(x, z) < 0
  {
    assert Transitive(cmp, y, z, x);
    Flip(cmp, x, y);
    Flip(cmp, x, z);
  }

  /** Comparing with the element at `m` moves one of the bounds to it. */
  lemma Narrow(s: seq<int>, lo: int, m: int, hi: int, value: int, cmp: Comparison)
    requires Comparator(cmp) && Ascending(s, cmp) && Bounds(s, lo, hi, value, cmp) && lo <= m < hi
    ensures cmp(value, s[m]) < 0 ==> Bounds(s, lo, m, value, cmp)
    ensures cmp(value, s[m]) > 0 ==> Bounds(s, m + 1, hi, value, cmp)
  {
    if cmp(value, s[m]) < 0 {
      forall i | m < i < |s| ensures cmp(value, s[i]) < 0 {
        Less(cmp, value, s[m], s[i]);
      }
    } else if cmp(value, s[m]) > 0 {
      forall i | 0 <= i < m ensures cmp(value, s[i]) > 0 {
        Flip(cmp, value, s[m]);
        Flip(cmp, value, s[i]);
        Less(cmp, s[i], s[m], value);
      }
    }
  }

  /** Data put where it splits an ascending order keeps it ascending. */
  lemma InsertAscends(s: seq<int>, p: nat, value: int, cmp: Comparison)
    requires Comparator(cmp) && Ascending(s, cmp) && Bounds(s, p, p, value, cmp)
    ensures Ascending(s[..p] + [value] + s[p..], cmp)
  {
    var u := s[..p] + [value] + s[p..];
    forall i, j | 0 <= i < j < |u| ensures cmp(u[i], u[j]) < 0 {
      Flip(cmp, u[i], value);
      assert i < p ==> u[i] == s[i];
      assert i > p ==> u[i] == s[i - 1];
      assert j < p ==> u[j] == s[j];
      assert j > p ==> u[j] == s[j - 1];
    }
  }

  /** `x` comes before `value`, for side 0, or after it, for side 1. */
  ghost predicate Beyond(cmp: Comparison, side: Side, x: int, value: int) {
    if side == 0 then cmp(x, value) < 0 else cmp(x, value) > 0
  }

  /** The first `q` elements are below `value`, those behind the next `e` are above it. */
  ghost predicate Cuts(s: seq<int>, q: nat, e: nat, value: int, cmp: Comparison) {
    && q + e <= |s|
    && forall i :: 0 <= i < |s| ==>
         (Beyond(cmp, 0, s[i], value) <==> i < q) && (Beyond(cmp, 1, s[i], value) <==> i >= q + e)
  }

  lemma SplitCuts(s: seq<int>, p: nat, value: int, cmp: Comparison)
    requires Comparator(cmp) && Bounds(s, p, p, value, cmp)
    ensures Cuts(s, p, 0, value, cmp)
  {
    forall i | 0 <= i < |s|
      ensures (Beyond(cmp, 0, s[i], value) <==> i < p) && (Beyond(cmp, 1, s[i], value) <==> i >= p)
    {
      Flip(cmp, s[i], value);
    }
  }

  lemma EqualCuts(s: seq<int>, q: nat, value: int, cmp: Comparison)
    requires Comparator(cmp) && Ascending(s, cmp) && q < |s| && cmp(value, s[q]) == 0
    ensures Cuts(s, q, 1, value, cmp)
  {
    Flip(cmp, value, s[q]);
    forall i | 0 <= i < |s|
      ensures (Beyond(cmp, 0, s[i], value) <==> i < q) && (Beyond(cmp, 1, s[i], value) <==> i >= q + 1)
    {
      Flip(cmp, s[i], value);
      Flip(cmp, s[i], s[q]);
      assert Transitive(cmp, s[i], value, s[q]) && Transitive(cmp, s[q], value, s[i]);
      assert Transitive(cmp, value, s[q], s[i]) && Transitive(cmp, s[i], s[q], value);
    }
  }

  /** Of the nodes on that side of `value`, `r` is the one next to it; null if there is none. */
  ghost predicate Closest(items: seq<Node>, value: int, side: Side, r: Node?, cmp: Comparison)
    reads Elems(items)`data
  {
    if r == null then forall n | n in items :: !Beyond(cmp, side, n.data, value)
    else
      r in items && Beyond(cmp, side, r.data, value) &&
      forall n | n in items && n != r && Beyond(cmp, side, n.data, value) :: Beyond(cmp, side, n.data, r.data)
  }

  /** The position next to a cut: the last below it or the first above it. */
  function NextTo(q: nat, e: nat, side: Side): int {
    if side == 0 then q - 1 else q + e
  }

  /** The element next to where `value` cuts an ascending order is the closest. */
  lemma CutClosest(items: seq<Node>, q: nat, e: nat, value: int, side: Side, cmp: Comparison)
    requires Comparator(cmp) && Ascending(Keys(items), cmp) && Cuts(Keys(items), q, e, value, cmp)
    ensures var i := NextTo(q, e, side);
      Closest(items, value, side, if 0 <= i < |items| then items[i] else null, cmp)
  {
    var ks, i := Keys(items), NextTo(q, e, side);
    forall n | n in items
      ensures Beyond(cmp, side, n.data, value) ==>
        0 <= i < |items| && (n != items[i] ==> Beyond(cmp, side, n.data, ks[i]))
    {
      var j := KeyOf(items, n);
      if 0 <= i < |items| && Beyond(cmp, side, ks[j], value) {
        Flip(cmp, ks[i], ks[j]);
      }
    }
  }

  /** All but the element at `p` is in ascending order. */
  ghost predicate AscendingBut(s: seq<int>, p: nat, cmp: Comparison) {
    p < |s| && Ascending(s[..p] + s[p + 1..], cmp)
  }

  /** No other element equals the one at `p`. */
  ghost predicate Alone(s: seq<int>, p: nat, cmp: Comparison) {
    p < |s| && forall i :: 0 <= i < |s| && i != p ==> cmp(s[p], s[i]) != 0
  }

  /** No element is above a later one. */
  ghost predicate NotDescending(s: seq<int>, cmp: Comparison) {
    forall i, j :: 0 <= i < j < |s| ==> cmp(s[i], s[j]) <= 0
  }

  /** In order, and equal to none: strictly in order. */
  lemma AloneAscends(s: seq<int>, p: nat, cmp: Comparison)
    requires Comparator(cmp) && AscendingBut(s, p, cmp) && Alone(s, p, cmp)
    ensures Ascending(s, cmp) <==> NotDescending(s, cmp)
  {
    if NotDescending(s, cmp) {
      forall i, j | 0 <= i < j < |s| ensures cmp(s[i], s[j]) < 0 {
        if i != p && j != p {
          OthersAscend(s, p, i, j, cmp);
        } else {
          Flip(cmp, s[i], s[j]);
        }
      }
    }
  }

  /** The element at `p` is below its predecessor, for side 0, or above its successor, for side 1. */
  predicate Misplaced(s: seq<int>, p: nat, side: Side, cmp: Comparison)
    requires p < |s|
  {
    if side == 0 then p > 0 && cmp(s[p], s[p - 1]) < 0
    else p + 1 < |s| && cmp(s[p], s[p + 1]) > 0
  }

  /** An element that moved is in order again exactly when it is in place between its neighbours. */
  lemma MisplacedAscends(s: seq<int>, p: nat, cmp: Comparison)
    requires Comparator(cmp) && AscendingBut(s, p, cmp)
    ensures NotDescending(s, cmp) <==> !Misplaced(s, p, 0, cmp) && !Misplaced(s, p, 1, cmp)
  {
    if p > 0 {
      Flip(cmp, s[p - 1], s[p]);
    }
    if !Misplaced(s, p, 0, cmp) && !Misplaced(s, p, 1, cmp) {
      forall i, j | 0 <= i < j < |s| ensures cmp(s[i], s[j]) <= 0 {
        if i != p && j != p {
          OthersAscend(s, p, i, j, cmp);
        } else if j == p && i < p - 1 {
          OthersAscend(s, p, i, p - 1, cmp);
          assert Transitive(cmp, s[i], s[p - 1], s[p]);
        } else if i == p && j > p + 1 {
          OthersAscend(s, p, p + 1, j, cmp);
          assert Transitive(cmp, s[p], s[p + 1], s[j]);
        }
      }
    }
  }

  lemma OthersAscend(s: seq<int>, p: nat, i: nat, j: nat, cmp: Comparison)
    requires AscendingBut(s, p, cmp) && i < j < |s| && i != p && j != p
    ensures cmp(s[i], s[j]) < 0
  {
    var u := s[..p] + s[p + 1..];
    var m, n := if i < p then i else i - 1, if j < p then j else j - 1;
    assert u[m] == s[i] && u[n] == s[j];
  }
}
