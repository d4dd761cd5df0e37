/**
  The heap objects of `lch/util/avl.c` and their meaning.

  A `Node` is an `avl_node_t` together with the user data it is embedded in.  A
  `Tree` is the ghost picture of a linked tree: it is labelled by the nodes
  themselves and by their stored balances.  `Rep` says that the heap is linked
  the way the picture shows.  A `Ctx` is a tree with a hole, read from the hole
  upwards, which is the part of the tree that the `parent` links walk through.
 */
module AvlModel {

  /** An index into `avl_child`: 0 is left, 1 is right. */
  type Side = d: int | 0 <= d <= 1

  /** `avl_child`, a pair of links indexed by a side. */
  datatype Children = Children(left: Node?, right: Node?) {
    function At(d: Side): Node? {
      if d == 0 then left else right
    }

    function With(d: Side, n: Node?): Children {
      if d == 0 then Children(n, right) else Children(left, n)
    }
  }

  class Node {
    var child: Children
    var parent: Node?
    var childIndex: Side
    var balance: int
    var data: int

    constructor (data: int)
      ensures this.data == data
    {
      child, parent, childIndex, balance := Children(null, null), null, 0, 0;
      this.data := data;
    }
  }

  datatype Tree = Leaf | Branch(left: Tree, node: Node, balance: int, right: Tree)

  // ----- Pictures of trees -----

  ghost function Nodes(t: Tree): set<Node> {
    match t
    case Leaf => {}
    case Branch(l, n, _, r) => Nodes(l) + {n} + Nodes(r)
  }

  ghost function Inorder(t: Tree): seq<Node> {
    match t
    case Leaf => []
    case Branch(l, n, _, r) => Inorder(l) + [n] + Inorder(r)
  }

  ghost function Height(t: Tree): nat {
    match t
    case Leaf => 0
    case Branch(l, _, _, r) => 1 + Max(Height(l), Height(r))
  }

  function Max(a: int, b: int): int {
    if a < b then b else a
  }

  ghost function RootNode(t: Tree): Node? {
    if t.Leaf? then null else t.node
  }

  /** No node occurs twice. */
  ghost predicate Distinct(t: Tree) {
    match t
    case Leaf => true
    case Branch(l, n, _, r) =>
      Distinct(l) && Distinct(r) && n !in Nodes(l) && n !in Nodes(r) && Nodes(l) !! Nodes(r)
  }

  /** The balance every node stores is the height difference, and that is -1, 0 or 1. */
  ghost predicate Avl(t: Tree) {
    match t
    case Leaf => true
    case Branch(l, _, b, r) =>
      Avl(l) && Avl(r) && b == Height(r) - Height(l) && -1 <= b <= 1
  }

  ghost function Kid(t: Tree, d: Side): Tree
    requires t.Branch?
  {
    if d == 0 then t.left else t.right
  }

  /** The branch whose child `d` is `near` and whose other child is `far`. */
  ghost function Join(d: Side, near: Tree, n: Node, b: int, far: Tree): Tree {
    if d == 0 then Branch(near, n, b, far) else Branch(far, n, b, near)
  }

  /** `avl_child2balance`. */
  function Weight(d: Side): int {
    if d == 0 then -1 else 1
  }

  ghost predicate NoDup(s: seq<Node>) {
    forall i, j :: 0 <= i < j < |s| ==> s[i] != s[j]
  }

  ghost function Elems(s: seq<Node>): set<Node> {
    set n | n in s
  }

  lemma ElemsConcat(a: seq<Node>, b: seq<Node>)
    ensures Elems(a + b) == Elems(a) + Elems(b)
  {}

  lemma {:induction false} NodesInorder(t: Tree)
    ensures Nodes(t) == Elems(Inorder(t))
    decreases t
  {
    match t
    case Leaf =>
    case Branch(l, n, _, r) =>
      NodesInorder(l);
      NodesInorder(r);
      ElemsConcat(Inorder(l), [n]);
      ElemsConcat(Inorder(l) + [n], Inorder(r));
  }

  lemma {:induction false} DistinctNoDup(t: Tree)
    ensures Distinct(t) <==> NoDup(Inorder(t))
    decreases t
  {
    match t
    case Leaf =>
    case Branch(l, n, _, r) =>
      DistinctNoDup(l);
      DistinctNoDup(r);
      NodesInorder(l);
      NodesInorder(r);
      NoDupConcat(Inorder(l), [n]);
      NoDupConcat(Inorder(l) + [n], Inorder(r));
      ElemsConcat(Inorder(l), [n]);
  }

  lemma NoDupConcat(a: seq<Node>, b: seq<Node>)
    ensures NoDup(a + b) <==> NoDup(a) && NoDup(b) && Elems(a) !! Elems(b)
  {
    var s := a + b;
    assert forall i :: 0 <= i < |a| ==> s[i] == a[i];
    assert forall i :: 0 <= i < |b| ==> s[|a| + i] == b[i];
    if NoDup(a) && NoDup(b) && Elems(a) !! Elems(b) {
      forall i, j | 0 <= i < j < |s| ensures s[i] != s[j] {
        if i < |a| <= j {
          assert a[i] in Elems(a) && b[j - |a|] in Elems(b);
        }
      }
    }
  }

  /** Two trees that list the same nodes in order agree on everything but shape. */
  lemma SameInorder(t: Tree, u: Tree)
    requires Inorder(t) == Inorder(u)
    ensures Nodes(t) == Nodes(u)
    ensures Distinct(t) <==> Distinct(u)
    ensures Size(t) == Size(u)
  {
    NodesInorder(t);
    NodesInorder(u);
    DistinctNoDup(t);
    DistinctNoDup(u);
    SizeInorder(t);
    SizeInorder(u);
  }

  ghost function Size(t: Tree): nat {
    match t
    case Leaf => 0
    case Branch(l, _, _, r) => Size(l) + 1 + Size(r)
  }

  lemma SizeInorder(t: Tree)
    ensures |Inorder(t)| == Size(t)
  {}

  // ----- The links show the picture -----

  /** What an `avl_node_t` stores. */
  datatype Link = Link(child: Children, parent: Node?, index: Side, balance: int)

  /** The stored links of a set of nodes at one moment. */
  type Links = map<Node, Link>

  ghost function Snap(S: set<Node>): Links
    reads S`child, S`parent, S`childIndex, S`balance
  {
    map n | n in S :: Link(n.child, n.parent, n.childIndex, n.balance)
  }

  ghost predicate Agree(h: Links, k: Links, S: set<Node>) {
    S <= h.Keys && S <= k.Keys && forall n | n in S :: h[n] == k[n]
  }

  /** Below parent `p` at index `i`, the nodes of `t` are linked as `t` shows. */
  ghost predicate Rep(t: Tree, p: Node?, i: Side, h: Links)
    decreases t
  {
    match t
    case Leaf => true
    case Branch(l, n, b, r) =>
      n in h && h[n] == Link(Children(RootNode(l), RootNode(r)), p, i, b) &&
      Rep(l, n, 0, h) && Rep(r, n, 1, h)
  }

  lemma {:induction false} RepFrame(t: Tree, p: Node?, i: Side, h: Links, k: Links)
    requires Rep(t, p, i, h) && Agree(h, k, Nodes(t))
    ensures Rep(t, p, i, k)
    decreases t
  {
    match t
    case Leaf =>
    case Branch(l, n, _, r) =>
      RepFrame(l, n, 0, h, k);
      RepFrame(r, n, 1, h, k);
  }

  lemma RepKeys(t: Tree, p: Node?, i: Side, h: Links)
    requires Rep(t, p, i, h)
    ensures Nodes(t) <= h.Keys
  {}

  /** A branch seen from side `d`. */
  lemma RepJoin(d: Side, near: Tree, n: Node, b: int, far: Tree, p: Node?, i: Side, h: Links)
    ensures Rep(Join(d, near, n, b, far), p, i, h) <==>
            n in h && h[n].child.At(d) == RootNode(near) && h[n].child.At(1 - d) == RootNode(far) &&
            h[n].parent == p && h[n].index == i && h[n].balance == b &&
            Rep(near, n, d, h) && Rep(far, n, 1 - d, h)
  {}

  // ----- Trees with a hole -----

  datatype Ctx = Top | Hole(up: Ctx, side: Side, node: Node, balance: int, sibling: Tree)

  ghost function CtxNodes(c: Ctx): set<Node> {
    match c
    case Top => {}
    case Hole(up, _, n, _, sib) => CtxNodes(up) + {n} + Nodes(sib)
  }

  ghost function Plug(c: Ctx, t: Tree): Tree {
    match c
    case Top => t
    case Hole(up, s, n, b, sib) => Plug(up, Join(s, t, n, b, sib))
  }

  ghost function CtxParent(c: Ctx): Node? {
    if c.Top? then null else c.node
  }

  ghost function CtxSide(c: Ctx): Side {
    if c.Top? then 0 else c.side
  }

  /** What node `n` with other child `sib` lists before, and after, its child `s`. */
  ghost function Prior(s: Side, n: Node, sib: Tree): seq<Node> {
    if s == 0 then [] else Inorder(sib) + [n]
  }

  ghost function Later(s: Side, n: Node, sib: Tree): seq<Node> {
    if s == 0 then [n] + Inorder(sib) else []
  }

  /** What comes before the hole in order, and what comes after it. */
  ghost function Before(c: Ctx): seq<Node> {
    match c
    case Top => []
    case Hole(up, s, n, _, sib) => if s == 0 then Before(up) else Before(up) + (Inorder(sib) + [n])
  }

  ghost function After(c: Ctx): seq<Node> {
    match c
    case Top => []
    case Hole(up, s, n, _, sib) => if s == 1 then After(up) else ([n] + Inorder(sib)) + After(up)
  }

  ghost predicate CtxDistinct(c: Ctx) {
    match c
    case Top => true
    case Hole(up, _, n, _, sib) =>
      CtxDistinct(up) && Distinct(sib) && n !in Nodes(sib) && n !in CtxNodes(up) &&
      Nodes(sib) !! CtxNodes(up)
  }

  /** The nodes around the hole are linked as `c` shows, with `hole` in the hole. */
  ghost predicate CtxRep(c: Ctx, hole: Node?, h: Links)
    decreases c
  {
    match c
    case Top => true
    case Hole(up, s, n, b, sib) =>
      n in h && h[n].child.At(s) == hole && h[n].child.At(1 - s) == RootNode(sib) &&
      h[n].parent == CtxParent(up) && h[n].index == CtxSide(up) && h[n].balance == b &&
      Rep(sib, n, 1 - s, h) && CtxRep(up, n, h)
  }

  lemma {:induction false} CtxFrame(c: Ctx, hole: Node?, h: Links, k: Links)
    requires CtxRep(c, hole, h) && Agree(h, k, CtxNodes(c))
    ensures CtxRep(c, hole, k)
    decreases c
  {
    match c
    case Top =>
    case Hole(up, s, n, _, sib) =>
      RepFrame(sib, n, 1 - s, h, k);
      CtxFrame(up, n, h, k);
  }

  /** The root of the whole tree when `hole` is the node in the hole. */
  ghost function CtxRoot(c: Ctx, hole: Node?): Node? {
    match c
    case Top => hole
    case Hole(up, _, n, _, _) => CtxRoot(up, n)
  }

  /** The balance of a branch whose child `s` has height `h` and whose other child has height `k`. */
  function Tilt(s: Side, h: int, k: int): int {
    if s == 0 then k - h else h - k
  }

  /** The tree around the hole is balanced when a tree of height `h` fills the hole. */
  ghost predicate CtxAvl(c: Ctx, h: nat) {
    match c
    case Top => true
    case Hole(up, s, _, b, sib) =>
      Avl(sib) && b == Tilt(s, h, Height(sib)) && -1 <= b <= 1 &&
      CtxAvl(up, 1 + Max(h, Height(sib)))
  }

  /** A node over two trees is balanced when both are and its balance says their difference. */
  lemma JoinAvl(d: Side, near: Tree, n: Node, b: int, far: Tree)
    ensures Avl(Join(d, near, n, b, far)) <==>
            Avl(near) && Avl(far) && b == Tilt(d, Height(near), Height(far)) && -1 <= b <= 1
    ensures Height(Join(d, near, n, b, far)) == 1 + Max(Height(near), Height(far))
  {}

  lemma {:induction false} PlugAvl(c: Ctx, t: Tree)
    ensures Avl(Plug(c, t)) <==> Avl(t) && CtxAvl(c, Height(t))
    decreases c
  {
    if c.Hole? {
      PlugAvl(c.up, Join(c.side, t, c.node, c.balance, c.sibling));
      JoinAvl(c.side, t, c.node, c.balance, c.sibling);
      assert CtxAvl(c, Height(t)) <==>
             Avl(c.sibling) && c.balance == Tilt(c.side, Height(t), Height(c.sibling)) && -1 <= c.balance <= 1 &&
             CtxAvl(c.up, 1 + Max(Height(t), Height(c.sibling)));
    }
  }

  lemma {:induction false} PlugInorder(c: Ctx, t: Tree)
    ensures Inorder(Plug(c, t)) == Before(c) + Inorder(t) + After(c)
    decreases c
  {
    match c
    case Top =>
    case Hole(up, s, n, b, sib) =>
      PlugInorder(up, Join(s, t, n, b, sib));
      JoinInorder(s, t, n, b, sib);
      Regroup(Before(up), Prior(s, n, sib), Inorder(t), Later(s, n, sib), After(up));
  }

  lemma JoinInorder(s: Side, t: Tree, n: Node, b: int, sib: Tree)
    ensures Inorder(Join(s, t, n, b, sib)) == Prior(s, n, sib) + Inorder(t) + Later(s, n, sib)
  {}

  lemma Regroup(a: seq<Node>, b: seq<Node>, m: seq<Node>, c: seq<Node>, d: seq<Node>)
    ensures a + (b + m + c) + d == (a + b) + m + (c + d)
  {}

  lemma {:induction false} PlugDistinct(c: Ctx, t: Tree)
    ensures Nodes(Plug(c, t)) == CtxNodes(c) + Nodes(t)
    ensures Distinct(Plug(c, t)) <==> Distinct(t) && CtxDistinct(c) && Nodes(t) !! CtxNodes(c)
    decreases c
  {
    match c
    case Top =>
    case Hole(up, s, n, b, sib) => PlugDistinct(up, Join(s, t, n, b, sib));
  }

  lemma {:induction false} PlugRoot(c: Ctx, t: Tree)
    ensures RootNode(Plug(c, t)) == CtxRoot(c, RootNode(t))
    decreases c
  {
    match c
    case Top =>
    case Hole(up, s, n, b, sib) => PlugRoot(up, Join(s, t, n, b, sib));
  }

  /** A whole tree is linked as shown exactly when both its parts are. */
  lemma {:induction false} PlugRep(c: Ctx, t: Tree, h: Links)
    ensures Rep(Plug(c, t), null, 0, h) <==>
            Rep(t, CtxParent(c), CtxSide(c), h) && CtxRep(c, RootNode(t), h)
    decreases c
  {
    match c
    case Top =>
    case Hole(up, s, n, b, sib) =>
      PlugRep(up, Join(s, t, n, b, sib), h);
      RepJoin(s, t, n, b, sib, CtxParent(up), CtxSide(up), h);
  }

  /** The links of the node at a known place in the tree. */
  lemma PlaceLinks(c: Ctx, t: Tree, h: Links)
    requires Rep(Plug(c, t), null, 0, h) && t.Branch?
    ensures t.node in h && h[t.node].child == Children(RootNode(t.left), RootNode(t.right))
    ensures h[t.node].parent == CtxParent(c) && h[t.node].index == CtxSide(c) && h[t.node].balance == t.balance
  {
    PlugRep(c, t, h);
  }

  /** Every node of a tree is the root of the subtree in some hole. */
  lemma {:induction false} Locate(up: Ctx, t: Tree, n: Node) returns (c: Ctx, s: Tree)
    requires n in Nodes(t)
    ensures Plug(c, s) == Plug(up, t)
    ensures s.Branch? && s.node == n
    decreases t
  {
    if t.node == n {
      c, s := up, t;
    } else if n in Nodes(t.left) {
      c, s := Locate(Hole(up, 0, t.node, t.balance, t.right), t.left, n);
    } else {
      c, s := Locate(Hole(up, 1, t.node, t.balance, t.left), t.right, n);
    }
  }
}
