/**
  Taking a tree apart without rebalancing (`avl_destroy_nodes`, `lch/util/avl.c`).  The
  cookie that the caller keeps between calls is a tree with a hole: the hole is where the
  node returned last was, and the nodes around it are those still to be returned.
 */
module AvlDestroy {
  import opened AvlModel
  import opened AvlRotation
  import opened AvlTree

  /** A parent pointer with a child index in its lowest bit. */
  datatype Cookie = Cookie(parent: Node?, bit: Side)

  const NULL_COOKIE := Cookie(null, 0)
  const CHILDBIT := Cookie(null, 1)

  ghost function Postorder(t: Tree): seq<Node> {
    match t
    case Leaf => []
    case Branch(l, n, _, r) => Postorder(l) + Postorder(r) + [n]
  }

  /** The nodes still to be returned. */
  ghost function Rest(c: Ctx): seq<Node> {
    match c
    case Top => []
    case Hole(up, s, n, _, sib) => (if s == 0 then Postorder(sib) else []) + [n] + Rest(up)
  }

  /** On the way up, left children of right children are gone, and right children are whole. */
  ghost predicate Dismantled(c: Ctx) {
    match c
    case Top => true
    case Hole(up, s, _, _, sib) => (if s == 1 then sib == Leaf else Avl(sib)) && Dismantled(up)
  }

  /** Every node occurs once in the returned order, after all nodes below it. */
  lemma {:induction false} PostorderVisits(t: Tree)
    ensures Elems(Postorder(t)) == Nodes(t) && |Postorder(t)| == Size(t)
    ensures Distinct(t) ==> NoDup(Postorder(t))
    decreases t
  {
    match t
    case Leaf =>
    case Branch(l, n, _, r) =>
      PostorderVisits(l);
      PostorderVisits(r);
      ElemsConcat(Postorder(l), Postorder(r));
      ElemsConcat(Postorder(l) + Postorder(r), [n]);
      NoDupConcat(Postorder(l), Postorder(r));
      NoDupConcat(Postorder(l) + Postorder(r), [n]);
  }

  /** In the returned order, what is below a node comes before it. */
  lemma {:induction false} ChildrenFirst(t: Tree, c: Ctx, s: Tree)
    requires Plug(c, s) == t && s.Branch?
    ensures exists a, b :: Postorder(t) == a + Postorder(s.left) + Postorder(s.right) + [s.node] + b
    decreases c
  {
    var below := Postorder(s.left) + Postorder(s.right) + [s.node];
    var a, b := PostorderAround(t, c, s);
    assert a + below + b == a + Postorder(s.left) + Postorder(s.right) + [s.node] + b;
  }

  lemma {:induction false} PostorderAround(t: Tree, c: Ctx, s: Tree) returns (a: seq<Node>, b: seq<Node>)
    requires Plug(c, s) == t
    ensures Postorder(t) == a + Postorder(s) + b
    decreases c
  {
    match c
    case Top =>
      a, b := [], [];
    case Hole(up, d, n, bal, sib) =>
      a, b := PostorderAround(t, up, Join(d, s, n, bal, sib));
      if d == 0 {
        b := Postorder(sib) + [n] + b;
      } else {
        a, b := a + Postorder(sib), [n] + b;
      }
  }

  lemma RestNodes(c: Ctx)
    requires CtxDistinct(c) && Dismantled(c)
    ensures Elems(Rest(c)) == CtxNodes(c)
  {
    if c.Hole? {
      RestNodes(c.up);
      var a := if c.side == 0 then Postorder(c.sibling) else [];
      PostorderVisits(c.sibling);
      ElemsConcat(a, [c.node]);
      ElemsConcat(a + [c.node], Rest(c.up));
    }
  }

  // ----- The leftmost place -----

  ghost function Spine(c: Ctx, t: Tree): (Ctx, Tree)
    requires t.Branch?
    decreases t
  {
    if t.left == Leaf then (c, t) else Spine(Hole(c, 0, t.node, t.balance, t.right), t.left)
  }

  /** Going down to the left keeps what is still to be returned. */
  lemma {:induction false} SpinePlace(c: Ctx, t: Tree)
    requires t.Branch? && Avl(t) && Dismantled(c)
    ensures var (d, s) := Spine(c, t);
            Plug(d, s) == Plug(c, t) && s.Branch? && s.left == Leaf && Avl(s) && Dismantled(d) &&
            |Inorder(t)| > 0 && s.node == Inorder(t)[0] && Postorder(s) + Rest(d) == Postorder(t) + Rest(c)
    decreases t
  {
    if t.left != Leaf {
      var above := Hole(c, 0, t.node, t.balance, t.right);
      SpinePlace(above, t.left);
      OneDown(c, t);
    }
  }

  lemma OneDown(c: Ctx, t: Tree)
    requires t.Branch?
    ensures Postorder(t.left) + Rest(Hole(c, 0, t.node, t.balance, t.right)) == Postorder(t) + Rest(c)
  {}

  // ----- The calls -----

  ghost function HoleNow(c: Ctx): Node?
    reads Owner(c)`child
  {
    if c.Top? then null else c.node.child.At(c.side)
  }

  ghost function CookieOf(c: Ctx): Cookie {
    if c.Top? then CHILDBIT else Cookie(c.node, c.side)
  }

  /** Between two calls: the nodes of `c` are still linked, and no other node matters. */
  ghost predicate Destroying(tree: AvlTree, cookie: Cookie, c: Ctx)
    reads tree`root, tree`numnodes
    reads CtxNodes(c)`child, CtxNodes(c)`parent, CtxNodes(c)`childIndex, CtxNodes(c)`balance
  {
    cookie == CookieOf(c) && CtxDistinct(c) && Dismantled(c) && CtxRep(c, HoleNow(c), Snap(CtxNodes(c))) &&
    (c.Hole? ==> tree.root != null && tree.numnodes == |Rest(c)| + 1) &&
    (c.Top? ==> if tree.root == null then tree.numnodes == 0 else tree.numnodes == 1)
  }

  /** The nodes that the calls from this one on will return. */
  ghost function ToReturn(tree: AvlTree, cookie: Cookie, c: Ctx): seq<Node>
    reads tree`shape
  {
    if cookie == NULL_COOKIE then Postorder(tree.shape) else Rest(c)
  }

  /** Where the next node is taken: `leaf` fills the hole of `d`, alone. */
  ghost predicate AtLeaf(tree: AvlTree, node: Node, d: Ctx, b: int, S: set<Node>, todo: seq<Node>)
    reads tree`root, S`child, S`parent, S`childIndex, S`balance
  {
    var t := Plug(d, Branch(Leaf, node, b, Leaf));
    Nodes(t) <= S && Rep(t, null, 0, Snap(S)) && Distinct(t) && Dismantled(d) && todo == [node] + Rest(d) &&
    tree.root != null
  }

  /** The cookie for a node about to be returned. */
  method MakeCookie(tree: AvlTree, node: Node, parent: Node?, ghost d: Ctx, ghost b: int, ghost S: set<Node>,
                    ghost todo: seq<Node>) returns (next: Cookie)
    requires AtLeaf(tree, node, d, b, S, todo) && parent == CtxParent(d) && tree.numnodes == |todo|
    ensures Destroying(tree, next, d) && node !in CtxNodes(d)
  {
    var t := Branch(Leaf, node, b, Leaf);
    PlugRep(d, t, Snap(S));
    PlugDistinct(d, t);
    CtxFrame(d, node, Snap(S), Snap(CtxNodes(d)));
    if parent == null {
      next := CHILDBIT;
    } else {
      next := Cookie(parent, node.childIndex);
    }
  }

  /** From a node without a left child step to its right child, if it has one, which is a leaf. */
  method CheckRightSide(tree: AvlTree, start: Node, up: Node?, ghost c: Ctx, ghost s: Tree, ghost S: set<Node>)
    returns (node: Node, parent: Node?, ghost d: Ctx, ghost b: int)
    requires s.Branch? && s.left == Leaf && Avl(s) && Dismantled(c) && s.node == start && up == CtxParent(c)
    requires var t := Plug(c, s); Nodes(t) <= S && Rep(t, null, 0, Snap(S)) && Distinct(t) && tree.root != null
    ensures AtLeaf(tree, node, d, b, S, Postorder(s) + Rest(c)) && parent == CtxParent(d)
  {
    node, parent, d, b := start, up, c, s.balance;
    PlaceLinks(c, s, Snap(S));
    PlugDistinct(c, s);
    if node.child.right != null {
      assert s.right == Branch(Leaf, s.right.node, s.right.balance, Leaf);
      d, b := Hole(c, 1, start, s.balance, Leaf), s.right.balance;
      parent := node;
      node := node.child.right;
      assert Postorder(s) + Rest(c) == [node] + Rest(d);
    } else {
      assert Postorder(s) + Rest(c) == [node] + Rest(d);
    }
  }

  /** Clearing the link to the node returned last leaves a smaller tree, still linked. */
  lemma ChildRemoved(c: Ctx, hole: Node?, h: Links, k: Links)
    requires c.Hole? && CtxRep(c, hole, h) && CtxDistinct(c) && Dismantled(c)
    requires Refilled(c, null, h, k) && Agree(h, k, CtxNodes(c) - Owner(c))
    ensures c.side == 1 || c.sibling == Leaf ==>
              var t := Plug(c.up, Branch(Leaf, c.node, c.balance, Leaf));
              Rep(t, null, 0, k) && Distinct(t) && Nodes(t) == CtxNodes(c)
    ensures c.side == 0 && c.sibling != Leaf ==>
              var t := Plug(Hole(c.up, 1, c.node, c.balance, Leaf), c.sibling);
              Rep(t, null, 0, k) && Distinct(t) && Nodes(t) == CtxNodes(c)
  {
    RefilledRep(c, hole, null, h, k);
    if c.side == 1 || c.sibling == Leaf {
      assert c.sibling == Leaf && CtxRep(c, null, k);
      assert k[c.node].child.At(c.side) == null && k[c.node].child.At(1 - c.side) == null;
      assert Rep(Branch(Leaf, c.node, c.balance, Leaf), CtxParent(c.up), CtxSide(c.up), k);
      PlugRep(c.up, Branch(Leaf, c.node, c.balance, Leaf), k);
      PlugDistinct(c.up, Branch(Leaf, c.node, c.balance, Leaf));
    } else {
      PlugRep(Hole(c.up, 1, c.node, c.balance, Leaf), c.sibling, k);
      PlugDistinct(Hole(c.up, 1, c.node, c.balance, Leaf), c.sibling);
    }
  }

  lemma LeftFirst(c: Ctx, t: Tree)
    requires t.Branch?
    ensures Postorder(t.left) + Rest(Hole(c, 0, t.node, t.balance, t.right)) == Postorder(t) + Rest(c)
  {}

  /** Go to the leftmost node of a subtree. */
  method Descend(start: Node, up: Node, ghost c0: Ctx, ghost t0: Tree, ghost S: set<Node>)
    returns (node: Node, parent: Node?, ghost c: Ctx, ghost t: Tree)
    requires t0.Branch? && t0.node == start && up == CtxParent(c0) && Avl(t0) && Dismantled(c0)
    requires var u := Plug(c0, t0); Nodes(u) <= S && Rep(u, null, 0, Snap(S)) && Distinct(u)
    ensures t.Branch? && t.left == Leaf && t.node == node && parent == CtxParent(c) && Avl(t) && Dismantled(c)
    ensures Plug(c, t) == Plug(c0, t0) && Postorder(t) + Rest(c) == Postorder(t0) + Rest(c0)
  {
    ghost var h := Snap(S);
    node, parent, c, t := start, up, c0, t0;
    PlaceLinks(c, t, h);
    while node.child.left != null
      invariant t.Branch? && t.node == node && parent == CtxParent(c) && Avl(t) && Dismantled(c)
      invariant node in S && node.child == Children(RootNode(t.left), RootNode(t.right))
      invariant Plug(c, t) == Plug(c0, t0) && Postorder(t) + Rest(c) == Postorder(t0) + Rest(c0)
      decreases t
    {
      ghost var above := Hole(c, 0, t.node, t.balance, t.right);
      LeftFirst(c, t);
      parent := node;
      node := node.child.left;
      c, t := above, t.left;
      PlaceLinks(c, t, h);
    }
  }

  /** What is to be done once the link to the node returned last is gone. */
  ghost predicate Dropped(tree: AvlTree, c: Ctx, S: set<Node>)
    requires c.Hole?
    reads tree`root, S`child, S`parent, S`childIndex, S`balance
  {
    tree.root != null && c.node in S && c.node.parent == CtxParent(c.up) &&
    if c.side == 1 || c.sibling == Leaf then
      c.node.child == Children(null, null) && AtLeaf(tree, c.node, c.up, c.balance, S, Rest(c))
    else
      var t := Plug(Hole(c.up, 1, c.node, c.balance, Leaf), c.sibling);
      c.node.child.right == RootNode(c.sibling) && Nodes(t) <= S && Rep(t, null, 0, Snap(S)) && Distinct(t)
  }

  /** Remove the link to the node returned last. */
  method DropChild(tree: AvlTree, parent: Node, child: Side, ghost c: Ctx)
    requires c.Hole? && Destroying(tree, Cookie(parent, child), c)
    modifies tree`numnodes, Owner(c)`child
    ensures Dropped(tree, c, CtxNodes(c)) && tree.numnodes == |Rest(c)|
  {
    ghost var S := CtxNodes(c);
    ghost var h, hole := Snap(S), HoleNow(c);
    parent.child := parent.child.With(child, null);
    tree.numnodes := tree.numnodes - 1;
    ChildRemoved(c, hole, h, Snap(S));
  }

  /** The node after the one that was child `child` of `parent0`. */
  method DestroyNext(tree: AvlTree, parent0: Node, child: Side, ghost c: Ctx)
    returns (node: Node, next: Cookie, ghost d: Ctx)
    requires c.Hole? && Destroying(tree, Cookie(parent0, child), c)
    modifies tree`numnodes, Owner(c)`child
    ensures Destroying(tree, next, d) && next != NULL_COOKIE
    ensures [node] + Rest(d) == Rest(c) && node !in CtxNodes(d)
  {
    ghost var S := CtxNodes(c);
    DropChild(tree, parent0, child, c);
    node, next, d := NextAfterDrop(tree, parent0, child, c, S);
  }

  method NextAfterDrop(tree: AvlTree, parent0: Node, child: Side, ghost c: Ctx, ghost S: set<Node>)
    returns (node: Node, next: Cookie, ghost d: Ctx)
    requires c.Hole? && c.node == parent0 && c.side == child && Dismantled(c)
    requires Dropped(tree, c, S) && tree.numnodes == |Rest(c)|
    ensures Destroying(tree, next, d) && next != NULL_COOKIE
    ensures [node] + Rest(d) == Rest(c) && node !in CtxNodes(d)
  {
    if child == 1 || parent0.child.right == null {
      node, d := parent0, c.up;
      next := MakeCookie(tree, node, parent0.parent, d, c.balance, S, Rest(c));
    } else {
      node, next, d := NextBelow(tree, parent0, c, S);
    }
  }

  /** The next node to return is the first leaf of the sibling subtree. */
  method NextBelow(tree: AvlTree, parent0: Node, ghost c: Ctx, ghost S: set<Node>)
    returns (node: Node, next: Cookie, ghost d: Ctx)
    requires c.Hole? && c.node == parent0 && c.side == 0 && c.sibling != Leaf && Dismantled(c)
    requires Dropped(tree, c, S) && tree.numnodes == |Rest(c)| && parent0.child.right != null
    ensures Destroying(tree, next, d) && next != NULL_COOKIE
    ensures [node] + Rest(d) == Rest(c) && node !in CtxNodes(d)
  {
    var parent: Node?;
    ghost var b;
    node, parent, d, b := LeafBelow(tree, parent0, c, S);
    next := MakeCookie(tree, node, parent, d, b, S, Rest(c));
  }

  method LeafBelow(tree: AvlTree, parent0: Node, ghost c: Ctx, ghost S: set<Node>)
    returns (node: Node, parent: Node?, ghost d: Ctx, ghost b: int)
    requires c.Hole? && c.node == parent0 && c.side == 0 && c.sibling != Leaf && Dismantled(c)
    requires Dropped(tree, c, S) && parent0.child.right != null
    ensures AtLeaf(tree, node, d, b, S, Rest(c)) && parent == CtxParent(d)
  {
    ghost var above := Hole(c.up, 1, c.node, c.balance, Leaf);
    assert Postorder(c.sibling) + Rest(above) == Rest(c);
    var low, up, e, s := Descend(parent0.child.right, parent0, above, c.sibling, S);
    node, parent, d, b := CheckRightSide(tree, low, up, e, s, S);
  }

  /**
    Return the next node of a tree that is taken apart, or null when there is none.  The
    first call passes the null cookie, each later one the cookie of the call before.
   */
  method DestroyNodes(tree: AvlTree, cookie: Cookie, ghost c: Ctx)
    returns (data: Node?, next: Cookie, ghost d: Ctx)
    requires if cookie == NULL_COOKIE then tree.Valid() && c == Top else Destroying(tree, cookie, c)
    modifies tree`root, tree`numnodes, Owner(c)`child
    ensures Destroying(tree, next, d) && next != NULL_COOKIE
    ensures var todo := old(ToReturn(tree, cookie, c));
            if todo == [] then data == null && d == Top && tree.root == null && tree.numnodes == 0
            else data == todo[0] && data !in CtxNodes(d) && Rest(d) == todo[1..]
  {
    ghost var S := if cookie == NULL_COOKIE then Nodes(tree.shape) else CtxNodes(c);
    ghost var todo := ToReturn(tree, cookie, c);
    var node: Node, parent: Node?;
    ghost var b;
    if cookie == NULL_COOKIE {
      PostorderVisits(tree.shape);
      SizeInorder(tree.shape);
      var first := tree.First();
      if first == null {
        return null, CHILDBIT, Top;
      }
      SpinePlace(Top, tree.shape);
      ghost var (e, s) := Spine(Top, tree.shape);
      PlaceLinks(e, s, Snap(S));
      PlugDistinct(e, s);
      node, parent, d, b := CheckRightSide(tree, first, first.parent, e, s, S);
      next := MakeCookie(tree, node, parent, d, b, S, todo);
      return node, next, d;
    }
    if cookie.parent == null {
      tree.root := null;
      tree.numnodes := 0;
      return null, CHILDBIT, Top;
    }
    data, next, d := DestroyNext(tree, cookie.parent, cookie.bit, c);
  }

  /** One more round of the loop that `avl.h` shows. */
  method DestroyRound(tree: AvlTree, cookie: Cookie, ghost c: Ctx, ghost c0: Ctx, returned: seq<Node>)
    returns (more: seq<Node>, done: bool, next: Cookie, ghost d: Ctx)
    requires Destroying(tree, cookie, c) && cookie != NULL_COOKIE
    requires returned + Rest(c) == Rest(c0) && CtxNodes(c) <= CtxNodes(c0)
    modifies tree`root, tree`numnodes, Owner(c)`child
    ensures Destroying(tree, next, d) && next != NULL_COOKIE
    ensures more + Rest(d) == Rest(c0) && CtxNodes(d) <= CtxNodes(c0)
    ensures if done then Rest(d) == [] && tree.root == null && tree.numnodes == 0 else |Rest(d)| < |Rest(c)|
  {
    var node;
    node, next, d := DestroyNodes(tree, cookie, c);
    if node == null {
      more, done := returned, true;
    } else {
      more, done := returned + [node], false;
      Popped(c, d, c0, returned, node);
    }
  }

  lemma Popped(c: Ctx, d: Ctx, c0: Ctx, returned: seq<Node>, node: Node)
    requires CtxDistinct(c) && Dismantled(c) && CtxDistinct(d) && Dismantled(d)
    requires Rest(c) != [] && node == Rest(c)[0] && Rest(d) == Rest(c)[1..]
    requires returned + Rest(c) == Rest(c0) && CtxNodes(c) <= CtxNodes(c0)
    ensures returned + [node] + Rest(d) == Rest(c0) && CtxNodes(d) <= CtxNodes(c0) && |Rest(d)| < |Rest(c)|
  {
    assert Rest(c) == [node] + Rest(d);
    RestNodes(c);
    RestWithin(d, [node], Rest(c));
  }

  /** The loop that `avl.h` shows, after its first round. */
  method DestroyRest(tree: AvlTree, cookie0: Cookie, ghost c0: Ctx) returns (returned: seq<Node>)
    requires Destroying(tree, cookie0, c0) && cookie0 != NULL_COOKIE
    modifies tree`root, tree`numnodes, CtxNodes(c0)`child
    ensures returned == Rest(c0) && tree.root == null && tree.numnodes == 0
  {
    ghost var c := c0;
    var cookie, done := cookie0, false;
    returned := [];
    while !done
      invariant Destroying(tree, cookie, c) && cookie != NULL_COOKIE
      invariant returned + Rest(c) == Rest(c0) && CtxNodes(c) <= CtxNodes(c0)
      invariant done ==> Rest(c) == [] && tree.root == null && tree.numnodes == 0
      decreases !done, |Rest(c)|
    {
      returned, done, cookie, c := DestroyRound(tree, cookie, c, c0, returned);
    }
  }

  lemma RestWithin(c: Ctx, done: seq<Node>, todo: seq<Node>)
    requires CtxDistinct(c) && Dismantled(c) && done + Rest(c) == todo
    ensures CtxNodes(c) <= Elems(todo)
  {
    RestNodes(c);
    ElemsConcat(done, Rest(c));
  }

  /** The loop that `avl.h` shows: every node is returned once, after the nodes below it. */
  method DestroyAll(tree: AvlTree) returns (returned: seq<Node>)
    requires tree.Valid()
    modifies tree`root, tree`numnodes, Nodes(tree.shape)`child
    ensures returned == Postorder(tree.shape)
    ensures tree.root == null && tree.numnodes == 0
  {
    var node, cookie, c := DestroyNodes(tree, NULL_COOKIE, Top);
    if node == null {
      return [];
    }
    PostorderVisits(tree.shape);
    RestWithin(c, [node], Postorder(tree.shape));
    var rest := DestroyRest(tree, cookie, c);
    returned := [node] + rest;
  }
}
