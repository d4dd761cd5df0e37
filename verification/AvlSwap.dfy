/**
  The swap with which `avl_remove` (`lch/util/avl.c`) turns the removal of a node with
  two children into the removal of one with at most one child: on the picture it is a
  renaming of two nodes.
 */
module AvlSwap {
  import opened AvlModel
  import opened AvlRotation

  /** `nb` takes the place of `del`, and the placeholder `tmp` takes the place of `nb`. */
  ghost function Sub(x: Node?, del: Node, nb: Node, tmp: Node): Node? {
    if x == del then nb else if x == nb then tmp else x
  }

  ghost function SubNode(x: Node, del: Node, nb: Node, tmp: Node): Node {
    if x == del then nb else if x == nb then tmp else x
  }

  ghost function SubChildren(c: Children, del: Node, nb: Node, tmp: Node): Children {
    Children(Sub(c.left, del, nb, tmp), Sub(c.right, del, nb, tmp))
  }

  ghost function SubLink(l: Link, del: Node, nb: Node, tmp: Node): Link {
    Link(SubChildren(l.child, del, nb, tmp), Sub(l.parent, del, nb, tmp), l.index, l.balance)
  }

  ghost function Relabel(t: Tree, del: Node, nb: Node, tmp: Node): Tree {
    match t
    case Leaf => Leaf
    case Branch(l, n, b, r) =>
      Branch(Relabel(l, del, nb, tmp), SubNode(n, del, nb, tmp), b, Relabel(r, del, nb, tmp))
  }

  ghost function SubSeq(s: seq<Node>, del: Node, nb: Node, tmp: Node): seq<Node> {
    seq(|s|, i requires 0 <= i < |s| => SubNode(s[i], del, nb, tmp))
  }

  lemma {:induction false} RelabelShape(t: Tree, del: Node, nb: Node, tmp: Node)
    ensures var u := Relabel(t, del, nb, tmp);
            Height(u) == Height(t) && Size(u) == Size(t) && (Avl(u) <==> Avl(t)) &&
            RootNode(u) == Sub(RootNode(t), del, nb, tmp) &&
            Inorder(u) == SubSeq(Inorder(t), del, nb, tmp)
    decreases t
  {
    match t
    case Leaf =>
    case Branch(l, _, _, r) =>
      RelabelShape(l, del, nb, tmp);
      RelabelShape(r, del, nb, tmp);
  }

  lemma SubSeqNoDup(s: seq<Node>, del: Node, nb: Node, tmp: Node)
    requires NoDup(s) && tmp !in s
    ensures NoDup(SubSeq(s, del, nb, tmp))
  {}

  lemma SubSeqElems(s: seq<Node>, del: Node, nb: Node, tmp: Node)
    requires del in s && nb in s && del != nb && tmp !in s
    ensures Elems(SubSeq(s, del, nb, tmp)) == Elems(s) - {del} + {tmp}
  {
    var v := SubSeq(s, del, nb, tmp);
    var i :| 0 <= i < |s| && s[i] == del;
    var j :| 0 <= j < |s| && s[j] == nb;
    assert v[i] == nb && v[j] == tmp;
    assert forall m :: 0 <= m < |s| ==> v[m] == SubNode(s[m], del, nb, tmp);
    forall x | x in s && x != del && x != nb ensures x in v {
      var m :| 0 <= m < |s| && s[m] == x;
      assert v[m] == x;
    }
  }

  lemma RelabelDistinct(t: Tree, del: Node, nb: Node, tmp: Node)
    requires Distinct(t) && del in Nodes(t) && nb in Nodes(t) && del != nb && tmp !in Nodes(t)
    ensures Distinct(Relabel(t, del, nb, tmp))
    ensures Nodes(Relabel(t, del, nb, tmp)) == Nodes(t) - {del} + {tmp}
  {
    var u := Relabel(t, del, nb, tmp);
    RelabelShape(t, del, nb, tmp);
    NodesInorder(t);
    NodesInorder(u);
    DistinctNoDup(t);
    DistinctNoDup(u);
    SubSeqNoDup(Inorder(t), del, nb, tmp);
    SubSeqElems(Inorder(t), del, nb, tmp);
  }

  /** The links after the swap, node by node. */
  ghost predicate Renamed(h: Links, k: Links, del: Node, nb: Node, tmp: Node) {
    forall n | n in h ::
      SubNode(n, del, nb, tmp) in k && k[SubNode(n, del, nb, tmp)] == SubLink(h[n], del, nb, tmp)
  }

  lemma {:induction false} RelabelRep(t: Tree, p: Node?, i: Side, h: Links, k: Links, del: Node, nb: Node, tmp: Node)
    requires Rep(t, p, i, h) && Renamed(h, k, del, nb, tmp)
    ensures Rep(Relabel(t, del, nb, tmp), Sub(p, del, nb, tmp), i, k)
    decreases t
  {
    match t
    case Leaf =>
    case Branch(l, n, _, r) =>
      RelabelRep(l, n, 0, h, k, del, nb, tmp);
      RelabelRep(r, n, 1, h, k, del, nb, tmp);
      RelabelShape(l, del, nb, tmp);
      RelabelShape(r, del, nb, tmp);
  }

  // ----- Links in a tree agree with each other -----

  /** Each child points back at its parent and knows its index. */
  ghost predicate Consistent(h: Links) {
    (forall n | n in h :: h[n].child.left != null ==>
       h[n].child.left in h && h[h[n].child.left].parent == n && h[h[n].child.left].index == 0) &&
    (forall n | n in h :: h[n].child.right != null ==>
       h[n].child.right in h && h[h[n].child.right].parent == n && h[h[n].child.right].index == 1) &&
    (forall n | n in h :: h[n].parent != null ==>
       h[n].parent in h && h[h[n].parent].child.At(h[n].index) == n)
  }

  /** The links of `n` inside a tree with nodes `S` and root `root` below `p` at index `i`. */
  ghost predicate LinksIn(n: Node, S: set<Node>, h: Links, p: Node?, i: Side, root: Node?) {
    n in h && S <= h.Keys && n !in {h[n].child.left, h[n].child.right} &&
    (h[n].child.left != null ==>
       h[n].child.left in S && h[h[n].child.left].parent == n && h[h[n].child.left].index == 0) &&
    (h[n].child.right != null ==>
       h[n].child.right in S && h[h[n].child.right].parent == n && h[h[n].child.right].index == 1) &&
    (if n == root then h[n].parent == p && h[n].index == i
     else h[n].parent in S && h[h[n].parent].child.At(h[n].index) == n)
  }

  lemma {:induction false} RepLinks(t: Tree, p: Node?, i: Side, h: Links)
    requires Rep(t, p, i, h) && Distinct(t)
    ensures forall n | n in Nodes(t) :: LinksIn(n, Nodes(t), h, p, i, RootNode(t))
    decreases t
  {
    match t
    case Leaf =>
    case Branch(l, n, _, r) =>
      RepLinks(l, n, 0, h);
      RepLinks(r, n, 1, h);
      RepKeys(t, p, i, h);
      forall m | m in Nodes(t) ensures LinksIn(m, Nodes(t), h, p, i, n) {
        if m in Nodes(l) {
          assert LinksIn(m, Nodes(l), h, n, 0, RootNode(l));
        } else if m in Nodes(r) {
          assert LinksIn(m, Nodes(r), h, n, 1, RootNode(r));
        }
      }
  }

  lemma TreeConsistent(t: Tree, h: Links)
    requires Rep(t, null, 0, h) && Distinct(t) && Nodes(t) == h.Keys
    ensures Consistent(h)
  {
    RepLinks(t, null, 0, h);
    assert forall n | n in h :: LinksIn(n, Nodes(t), h, null, 0, RootNode(t));
  }

  /** A node with two children can be swapped with a node below it that lacks a child. */
  lemma CanSwap(c: Ctx, s: Tree, nb: Node, left: Side, h: Links)
    requires var t := Plug(c, s); Rep(t, null, 0, h) && Distinct(t) && Nodes(t) == h.Keys
    requires s.Branch? && s.left.Branch? && s.right.Branch?
    requires nb in Nodes(Kid(s, left)) && nb in h && h[nb].child.At(1 - left) == null
    ensures Consistent(h) && SwapReady(h, s.node, nb, left)
  {
    var del, near, far := s.node, Kid(s, left), Kid(s, 1 - left);
    TreeConsistent(Plug(c, s), h);
    PlugRep(c, s, h);
    PlugDistinct(c, s);
    assert s == Join(left, near, del, s.balance, far);
    DistinctJoin(left, near, del, s.balance, far);
    RepJoin(left, near, del, s.balance, far, CtxParent(c), CtxSide(c), h);
    RepLinks(near, del, left, h);
    assert LinksIn(nb, Nodes(near), h, del, left, RootNode(near));
    assert h[del].parent == null || h[del].parent in CtxNodes(c);
  }

  /** What the swap finds at the nodes it touches. */
  ghost predicate SwapReady(h: Links, del: Node, nb: Node, left: Side) {
    del in h && nb in h && del != nb &&
    h[del].child.left in h && h[del].child.right in h && h[del].child.left != h[del].child.right &&
    del !in {h[del].child.left, h[del].child.right} && h[del].child.At(1 - left) != nb &&
    (h[del].parent == null || h[del].parent in h) && h[del].parent !in {del, nb} &&
    h[nb].parent in h && h[nb].parent != nb && h[del].parent != h[nb].parent &&
    (h[nb].parent == del <==> h[del].child.At(left) == nb) && (h[nb].parent == del ==> h[nb].index == left) &&
    h[nb].child.At(1 - left) == null && h[nb].child.At(left) !in {del, nb} &&
    (h[nb].child.At(left) != null ==>
       h[nb].child.At(left) in h && h[nb].child.At(left) !in {h[del].child.left, h[del].child.right})
  }

  /** What the swap writes, field by field. */
  ghost predicate SwapStep(h: Links, k: Links, del: Node, nb: Node, tmp: Node, left: Side) {
    del in h && nb in h && nb in k && tmp in k &&
    k[nb] == Link(if h[del].child.At(left) == nb then h[del].child.With(left, tmp) else h[del].child,
                  h[del].parent, h[del].index, h[del].balance) &&
    k[tmp] == Link(h[nb].child, if h[nb].parent == del then nb else h[nb].parent, h[nb].index, h[nb].balance) &&
    forall n | n in h && n != del && n != nb ::
      n in k && k[n].index == h[n].index && k[n].balance == h[n].balance &&
      k[n].child == (if n == h[del].parent then h[n].child.With(h[del].index, nb)
                     else if n == h[nb].parent then h[n].child.With(h[nb].index, tmp) else h[n].child) &&
      k[n].parent == (if n == h[del].child.left || n == h[del].child.right then nb
                      else if n == h[nb].child.left || n == h[nb].child.right then tmp else h[n].parent)
  }

  /** First half of the swap: `tmp` is a copy of `nb`, which has gone to the place of `del`. */
  ghost predicate MoveStep(h: Links, k: Links, del: Node, nb: Node, tmp: Node, left: Side) {
    del in h && nb in h && nb in k && tmp in k &&
    k[nb] == Link(if h[del].child.At(left) == nb then h[del].child.With(left, tmp) else h[del].child,
                  h[del].parent, h[del].index, h[del].balance) &&
    k[tmp] == Link(h[nb].child, if h[nb].parent == del then nb else h[nb].parent, h[nb].index, h[nb].balance) &&
    forall n | n in h && n != nb :: n in k && k[n] == MovedLink(n, h, del, nb)
  }

  ghost function MovedLink(n: Node, h: Links, del: Node, nb: Node): Link
    requires n in h && del in h
  {
    Link(if n == h[del].parent then h[n].child.With(h[del].index, nb) else h[n].child,
         if n == h[del].child.left || n == h[del].child.right then nb else h[n].parent,
         h[n].index, h[n].balance)
  }

  /** Second half: the parent and the child of `tmp` point at it. */
  ghost predicate PutStep(h: Links, k: Links, tmp: Node) {
    h.Keys == k.Keys && tmp in h && forall n | n in h :: k[n] == PutLink(n, h, tmp)
  }

  ghost function PutLink(n: Node, h: Links, tmp: Node): Link
    requires n in h && tmp in h
  {
    Link(if n == h[tmp].parent then h[n].child.With(h[tmp].index, tmp) else h[n].child,
         if n == h[tmp].child.left || n == h[tmp].child.right then tmp else h[n].parent,
         h[n].index, h[n].balance)
  }

  /** The two halves together, whatever is remembered of `del`. */
  lemma HalvesSwap(h: Links, g: Links, k: Links, r: Links, del: Node, nb: Node, tmp: Node, left: Side)
    requires SwapReady(h, del, nb, left) && tmp !in h
    requires forall n | n in h :: h[n].child.left != tmp && h[n].child.right != tmp
    requires MoveStep(h, g, del, nb, tmp, left) && PutStep(g, k, tmp)
    requires Agree(r, k, k.Keys - {del})
    ensures SwapStep(h, r, del, nb, tmp, left)
  {
    assert r[tmp] == k[tmp] == PutLink(tmp, g, tmp);
    assert r[nb] == k[nb] == PutLink(nb, g, tmp);
    forall n | n in h && n != del && n != nb
      ensures n in r && r[n] == PutLink(n, g, tmp) && g[n] == MovedLink(n, h, del, nb)
    {
    }
  }

  /** In a consistently linked tree the swap is a renaming. */
  lemma SwapRenames(h: Links, k: Links, del: Node, nb: Node, tmp: Node, left: Side)
    requires Consistent(h) && SwapStep(h, k, del, nb, tmp, left) && del != nb
    requires h[del].parent !in {del, nb} && h[nb].parent != nb
    requires h[del].parent != null ==> h[del].parent != h[nb].parent
    requires h[nb].parent == del ==> h[del].child.At(left) == nb
    ensures Renamed(h, k, del, nb, tmp)
  {
    assert k[nb] == SubLink(h[del], del, nb, tmp);
    assert k[tmp] == SubLink(h[nb], del, nb, tmp);
    forall n | n in h && n != del && n != nb
      ensures k[n] == SubLink(h[n], del, nb, tmp)
    {
      SwapRenamesOther(n, h, k, del, nb, tmp, left);
    }
  }

  lemma SwapRenamesOther(n: Node, h: Links, k: Links, del: Node, nb: Node, tmp: Node, left: Side)
    requires Consistent(h) && SwapStep(h, k, del, nb, tmp, left) && del != nb
    requires h[del].parent != null ==> h[del].parent != h[nb].parent
    requires n in h && n != del && n != nb
    ensures k[n] == SubLink(h[n], del, nb, tmp)
  {
    assert k[n].child == SubChildren(h[n].child, del, nb, tmp);
    assert k[n].parent == Sub(h[n].parent, del, nb, tmp);
  }

  /** After the swap the links show the renamed tree. */
  lemma SwappedTree(t: Tree, h: Links, k: Links, del: Node, nb: Node, tmp: Node, left: Side)
    requires Rep(t, null, 0, h) && Distinct(t) && Avl(t) && Nodes(t) == h.Keys && tmp !in h
    requires Consistent(h) && SwapReady(h, del, nb, left) && SwapStep(h, k, del, nb, tmp, left)
    ensures var u := Relabel(t, del, nb, tmp);
            Rep(u, null, 0, k) && Distinct(u) && Nodes(u) == h.Keys - {del} + {tmp} && Avl(u) &&
            Inorder(u) == SubSeq(Inorder(t), del, nb, tmp)
    ensures RootNode(Relabel(t, del, nb, tmp)) == if h[del].parent == null then nb else RootNode(t)
  {
    var u := Relabel(t, del, nb, tmp);
    SwapRenames(h, k, del, nb, tmp, left);
    RelabelRep(t, null, 0, h, k, del, nb, tmp);
    RelabelDistinct(t, del, nb, tmp);
    RelabelShape(t, del, nb, tmp);
    RepLinks(t, null, 0, h);
    assert LinksIn(del, h.Keys, h, null, 0, RootNode(t));
    assert LinksIn(nb, h.Keys, h, null, 0, RootNode(t));
  }

  // ----- The order after the swap -----

  ghost function Without(s: seq<Node>, p: nat): seq<Node>
    requires p < |s|
  {
    s[..p] + s[p + 1..]
  }

  /** The extreme node on the inner side of a subtree is the neighbour of the node above the subtree. */
  lemma Adjacent(c: Ctx, s: Tree, left: Side, cf: Ctx, m: Tree) returns (p: nat, q: nat)
    requires s.Branch? && m.Branch? && Plug(cf, m) == Plug(c, s) && Kid(m, 1 - left) == Leaf
    requires var above := Hole(c, left, s.node, s.balance, Kid(s, 1 - left));
             if left == 0 then After(cf) == After(above) else Before(cf) == Before(above)
    ensures var items := Inorder(Plug(c, s));
            p < |items| && q < |items| && items[p] == s.node && items[q] == m.node && q == p + Weight(left)
  {
    PlugInorder(cf, m);
    if left == 0 {
      var a, b := Before(cf) + Inorder(m.left), After(cf);
      assert b[0] == s.node;
      assert Before(cf) + (Inorder(m.left) + [m.node] + []) + After(cf) == a + [m.node] + b;
      p, q := |a| + 1, |a|;
    } else {
      var a, b := Before(cf), Inorder(m.right) + After(cf);
      assert a[|a| - 1] == s.node;
      assert Before(cf) + ([] + [m.node] + Inorder(m.right)) + After(cf) == a + [m.node] + b;
      p, q := |a| - 1, |a|;
    }
  }

  /** Taking the placeholder out of the renamed order takes the node out of the order there was. */
  lemma SwapOrder(s: seq<Node>, del: Node, nb: Node, tmp: Node, p: nat, q: nat)
    requires NoDup(s) && p < |s| && q < |s| && s[p] == del && s[q] == nb && (q == p + 1 || p == q + 1)
    ensures SubSeq(s, del, nb, tmp)[q] == tmp
    ensures Without(SubSeq(s, del, nb, tmp), q) == Without(s, p)
  {}

  /** The whole swap: what is needed to make it, and what it makes of the tree and its order. */
  lemma SwapMade(c: Ctx, s: Tree, left: Side, cf: Ctx, m: Tree, tmp: Node, h: Links, k: Links)
    returns (p: nat, q: nat)
    requires var t := Plug(c, s); Rep(t, null, 0, h) && Distinct(t) && Avl(t) && Nodes(t) == h.Keys && tmp !in h
    requires s.Branch? && s.left.Branch? && s.right.Branch?
    requires m.Branch? && Plug(cf, m) == Plug(c, s) && m.node in Nodes(Kid(s, left)) && Kid(m, 1 - left) == Leaf
    requires var above := Hole(c, left, s.node, s.balance, Kid(s, 1 - left));
             if left == 0 then After(cf) == After(above) else Before(cf) == Before(above)
    requires SwapReady(h, s.node, m.node, left) && SwapStep(h, k, s.node, m.node, tmp, left)
    ensures var t := Plug(c, s); var u := Relabel(t, s.node, m.node, tmp);
            Rep(u, null, 0, k) && Distinct(u) && Nodes(u) == h.Keys - {s.node} + {tmp} && Avl(u) &&
            RootNode(u) == (if h[s.node].parent == null then m.node else RootNode(t)) &&
            p < |Inorder(t)| && Inorder(t)[p] == s.node && q < |Inorder(u)| && Inorder(u)[q] == tmp &&
            Without(Inorder(u), q) == Without(Inorder(t), p)
  {
    var t := Plug(c, s);
    PlaceLinks(cf, m, h);
    CanSwap(c, s, m.node, left, h);
    SwappedTree(t, h, k, s.node, m.node, tmp, left);
    p, q := Adjacent(c, s, left, cf, m);
    DistinctNoDup(t);
    SwapOrder(Inorder(t), s.node, m.node, tmp, p, q);
  }
}
