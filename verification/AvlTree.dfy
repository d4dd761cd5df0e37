/**
  The balanced tree of `lch/util/avl.c`, updated in place.
 */
module AvlTree {
  import opened AvlModel
  import opened AvlOrder
  import opened AvlRotation
  import opened AvlSteps
  import opened AvlSwap

  ghost function Opt(n: Node?): set<Node> {
    if n == null then {} else {n}
  }

  class AvlTree {
    var root: Node?
    var numnodes: nat
    const compar: Comparison
    ghost var shape: Tree

    /** `avl_create`. */
    constructor (compar: Comparison)
      ensures Valid() && Items() == [] && numnodes == 0 && this.compar == compar
    {
      this.compar := compar;
      root, numnodes, shape := null, 0, Leaf;
    }

    /** The nodes `S` are linked as `t` shows and list `items` in order. */
    ghost predicate Linked(t: Tree, S: set<Node>, items: seq<Node>)
      reads this`root, S`child, S`parent, S`childIndex, S`balance
    {
      root == RootNode(t) && Nodes(t) == S && Rep(t, null, 0, Snap(S)) && Distinct(t) && Inorder(t) == items
    }

    ghost predicate Valid()
      reads this`root, this`numnodes, this`shape
      reads Nodes(shape)`child, Nodes(shape)`parent, Nodes(shape)`childIndex, Nodes(shape)`balance
    {
      Linked(shape, Nodes(shape), Items()) && numnodes == Size(shape) && Avl(shape)
    }

    /** The nodes in tree order. */
    ghost function Items(): seq<Node>
      reads this`shape
    {
      Inorder(shape)
    }

    /** The pointer surgery of the first case: `child` moves up over `node`. */
    method LiftChild(node: Node, child: Node, childBal: int, left: Side)
      requires node != child && child.child.At(1 - left) !in {node, child} && node.parent !in {node, child}
      requires node.parent == null || node.parent != child.child.At(1 - left)
      modifies this`root, Opt(node.parent)`child
      modifies Opt(child.child.At(1 - left))`parent, Opt(child.child.At(1 - left))`childIndex
      modifies {node, child}`child, {node, child}`parent, {node, child}`childIndex, {node, child}`balance
      ensures node.child == old(node.child.With(left, child.child.At(1 - left)))
      ensures child.child == old(child.child.With(1 - left, node))
      ensures node.parent == child && node.childIndex == 1 - left && node.balance == -childBal
      ensures child.parent == old(node.parent) && child.childIndex == old(node.childIndex) && child.balance == childBal
      ensures var m := old(child.child.At(1 - left)); m != null ==> m.parent == node && m.childIndex == left
      ensures root == if child.parent == null then child else old(root)
      ensures child.parent != null ==> child.parent.child == old(node.parent.child.With(node.childIndex, child))
    {
      var right := 1 - left;
      var parent := node.parent;
      var which := node.childIndex;

      var cright := child.child.At(right);
      node.child := node.child.With(left, cright);
      if cright != null {
        cright.parent := node;
        cright.childIndex := left;
      }

      child.child := child.child.With(right, node);
      node.balance := -childBal;
      node.childIndex := right;
      node.parent := child;

      child.balance := childBal;
      child.childIndex := which;
      child.parent := parent;
      if parent != null {
        parent.child := parent.child.With(which, child);
      } else {
        root := child;
      }
    }

    /** The second case, first half: the children of `gchild` go to `child` and `node`. */
    method HandOver(node: Node, child: Node, gchild: Node, left: Side)
      requires node != child && gchild !in {node, child}
      requires gchild.child.left !in {node, child, gchild} && gchild.child.right !in {node, child, gchild}
      requires gchild.child.left == null || gchild.child.left != gchild.child.right
      modifies node`child, child`child
      modifies Opt(gchild.child.left)`parent, Opt(gchild.child.left)`childIndex
      modifies Opt(gchild.child.right)`parent, Opt(gchild.child.right)`childIndex
      ensures node.child == old(node.child.With(left, gchild.child.At(1 - left)))
      ensures child.child == old(child.child.With(1 - left, gchild.child.At(left)))
      ensures var g := gchild.child.At(left); g != null ==> g.parent == child && g.childIndex == 1 - left
      ensures var g := gchild.child.At(1 - left); g != null ==> g.parent == node && g.childIndex == left
    {
      var right := 1 - left;
      var gleft := gchild.child.At(left);
      var gright := gchild.child.At(right);
      node.child := node.child.With(left, gright);
      if gright != null {
        gright.parent := node;
        gright.childIndex := left;
      }
      child.child := child.child.With(right, gleft);
      if gleft != null {
        gleft.parent := child;
        gleft.childIndex := right;
      }
    }

    /** The second case, second half: `gchild` takes the place of `node`, above `child` and `node`. */
    method LinkUp(node: Node, child: Node, gchild: Node, left: Side)
      requires node != child && gchild !in {node, child} && node.parent !in {node, child, gchild}
      modifies this`root, Opt(node.parent)`child, gchild`child
      modifies {node, child, gchild}`parent, {node, child, gchild}`childIndex, {node, child, gchild}`balance
      ensures gchild.child == Pair(left, child, node)
      ensures node.parent == gchild && node.childIndex == 1 - left
      ensures child.parent == gchild && child.childIndex == left
      ensures gchild.parent == old(node.parent) && gchild.childIndex == old(node.childIndex)
      ensures child.balance == if old(gchild.balance) == Weight(1 - left) then Weight(left) else 0
      ensures node.balance == if old(gchild.balance) == Weight(left) then Weight(1 - left) else 0
      ensures gchild.balance == 0
      ensures root == if gchild.parent == null then gchild else old(root)
      ensures gchild.parent != null ==> gchild.parent.child == old(node.parent.child.With(node.childIndex, gchild))
    {
      var right := 1 - left;
      var leftHeavy := Weight(left);
      var rightHeavy := -leftHeavy;
      var parent := node.parent;
      var which := node.childIndex;

      var balance := gchild.balance;
      gchild.child := gchild.child.With(left, child);
      child.balance := if balance == rightHeavy then leftHeavy else 0;
      child.parent := gchild;
      child.childIndex := left;

      gchild.child := gchild.child.With(right, node);
      node.balance := if balance == leftHeavy then rightHeavy else 0;
      node.parent := gchild;
      node.childIndex := right;

      gchild.balance := 0;
      gchild.parent := parent;
      gchild.childIndex := which;
      if parent != null {
        parent.child := parent.child.With(which, gchild);
      } else {
        root := gchild;
      }
    }

    /** The pointer surgery of the second case: `gchild` moves up over `child` and `node`. */
    method LiftGrandchild(node: Node, child: Node, gchild: Node, left: Side, ghost gl: Tree, ghost gr: Tree,
                          ghost c: Ctx,
                          ghost S: set<Node>)
      requires node in S && child in S && gchild in S && node != child && gchild !in {node, child}
      requires node.parent == CtxParent(c) && node.childIndex == CtxSide(c)
      requires gchild.child == Pair(left, RootNode(gl), RootNode(gr))
      requires RootSet(gl) <= S - {node, child, gchild}
      requires RootSet(gr) <= S - {node, child, gchild} - RootSet(gl)
      requires Owner(c) <= S - {node, child, gchild} - RootSet(gl) - RootSet(gr)
      modifies this`root, S`child, S`parent, S`childIndex, S`balance
      ensures var cb := if old(gchild.balance) == Weight(1 - left) then Weight(left) else 0;
              var nb := if old(gchild.balance) == Weight(left) then Weight(1 - left) else 0;
              TwiceStep(left, node, child, gchild, gl, gr, c, cb, nb, old(Snap(S)), Snap(S))
      ensures root == if c.Top? then gchild else old(root)
    {
      ghost var h := Snap(S);
      HandDown(node, child, gchild, left, gl, gr, S);
      ghost var g := Snap(S);
      ghost var cb, nb := LiftOver(node, child, gchild, left, c, S);
      HalvesTwice(left, node, child, gchild, gl, gr, c, cb, nb, h, g, Snap(S));
    }

    method HandDown(node: Node, child: Node, gchild: Node, left: Side, ghost gl: Tree, ghost gr: Tree,
                    ghost S: set<Node>)
      requires node in S && child in S && gchild in S && node != child && gchild !in {node, child}
      requires gchild.child == Pair(left, RootNode(gl), RootNode(gr))
      requires RootSet(gl) <= S - {node, child, gchild}
      requires RootSet(gr) <= S - {node, child, gchild} - RootSet(gl)
      modifies S`child, S`parent, S`childIndex
      ensures HandStep(left, node, child, gl, gr, old(Snap(S)), Snap(S))
    {
      HandOver(node, child, gchild, left);
    }

    method LiftOver(node: Node, child: Node, gchild: Node, left: Side, ghost c: Ctx, ghost S: set<Node>)
      returns (ghost cb: int, ghost nb: int)
      requires node in S && child in S && gchild in S && node != child && gchild !in {node, child}
      requires node.parent == CtxParent(c) && node.childIndex == CtxSide(c) && Owner(c) <= S - {node, child, gchild}
      modifies this`root, S`child, S`parent, S`childIndex, S`balance
      ensures cb == if old(gchild.balance) == Weight(1 - left) then Weight(left) else 0
      ensures nb == if old(gchild.balance) == Weight(left) then Weight(1 - left) else 0
      ensures UpStep(left, node, child, gchild, c, cb, nb, old(Snap(S)), Snap(S))
      ensures root == if c.Top? then gchild else old(root)
    {
      LinkUp(node, child, gchild, left);
      cb, nb := child.balance, node.balance;
    }

    /** The first case of the rotation, on the picture. */
    method RotateOnce(node: Node, child: Node, b: int, left: Side, ghost a: Tree, ghost cb: int, ghost m: Tree,
                      ghost nb: int, ghost far: Tree, ghost c: Ctx, ghost S: set<Node>)
      requires var t := Plug(c, Join(left, Join(left, a, child, cb, m), node, nb, far));
               Distinct(t) && S == Nodes(t) && Rep(t, null, 0, Snap(S)) && root == RootNode(t)
      modifies this`root, S`child, S`parent, S`childIndex, S`balance
      ensures var u := Plug(c, Join(left, a, child, b, Join(left, m, node, -b, far)));
              Rep(u, null, 0, Snap(S)) && root == RootNode(u)
    {
      ghost var h := Snap(S);
      OnceNames(left, a, child, cb, m, node, nb, far, c, h);
      PlugRoot(c, Join(left, Join(left, a, child, cb, m), node, nb, far));
      PlugRoot(c, Join(left, a, child, b, Join(left, m, node, -b, far)));
      LiftChild(node, child, b, left);
      OnceRotates(left, a, child, cb, m, node, nb, far, c, b, h, Snap(S));
    }

    /** The second case of the rotation, on the picture. */
    method RotateTwice(node: Node, child: Node, gchild: Node, left: Side, ghost a: Tree, ghost cb0: int, ghost gl: Tree,
                       ghost gb: int, ghost gr: Tree, ghost nb0: int, ghost far: Tree, ghost c: Ctx, ghost S: set<Node>)
      requires var t := Plug(c, Join(left, Join(left, a, child, cb0, Join(left, gl, gchild, gb, gr)), node, nb0, far));
               Distinct(t) && S == Nodes(t) && Rep(t, null, 0, Snap(S)) && root == RootNode(t)
      modifies this`root, S`child, S`parent, S`childIndex, S`balance
      ensures var cb := if gb == Weight(1 - left) then Weight(left) else 0;
              var nb := if gb == Weight(left) then Weight(1 - left) else 0;
              var u := Plug(c, Join(left, Join(left, a, child, cb, gl), gchild, 0, Join(left, gr, node, nb, far)));
              Rep(u, null, 0, Snap(S)) && root == RootNode(u)
    {
      ghost var h := Snap(S);
      ghost var cb := if gb == Weight(1 - left) then Weight(left) else 0;
      ghost var nb := if gb == Weight(left) then Weight(1 - left) else 0;
      TwiceNames(left, a, child, cb0, gl, gchild, gb, gr, node, nb0, far, c, h);
      PlugRoot(c, Join(left, Join(left, a, child, cb0, Join(left, gl, gchild, gb, gr)), node, nb0, far));
      PlugRoot(c, Join(left, Join(left, a, child, cb, gl), gchild, 0, Join(left, gr, node, nb, far)));
      LiftGrandchild(node, child, gchild, left, gl, gr, c, S);
      TwiceRotates(left, a, child, cb0, gl, gchild, gb, gr, node, nb0, far, c, cb, nb, h, Snap(S));
    }

    /** The child on the heavy side is where the links say. */
    lemma ChildOf(node: Node, left: Side, c: Ctx, t: Tree, balance: int, S: set<Node>, items: seq<Node>)
      requires Rotatable(t, balance) && node == t.node && left == HeavySide(balance) && Linked(Plug(c, t), S, items)
      ensures var tc := Kid(t, left);
        tc.Branch? && tc.node in S && node in S && node.child.At(left) == tc.node && tc.node.balance == tc.balance
    {
      var tc, far := Kid(t, left), Kid(t, 1 - left);
      assert t == Join(left, Join(left, Kid(tc, left), tc.node, tc.balance, Kid(tc, 1 - left)), node, t.balance, far);
      LinkedParts(left, Kid(tc, left), tc.node, tc.balance, Kid(tc, 1 - left), node, t.balance, far, c, Snap(S));
    }

    /** The child leans to the same side or not at all: it is lifted. */
    method RotateLight(node: Node, child: Node, left: Side, ghost c: Ctx, ghost t: Tree, ghost balance: int,
                       ghost S: set<Node>, ghost items: seq<Node>)
      returns (shrunk: bool)
      requires Rotatable(t, balance) && node == t.node && Linked(Plug(c, t), S, items)
      requires left == HeavySide(balance) && child == Kid(t, left).node
      requires child.balance == Kid(t, left).balance != Weight(1 - left)
      modifies this`root, S`child, S`parent, S`childIndex, S`balance
      ensures Linked(Plug(c, Rotated(t, balance)), S, items)
      ensures shrunk <==> Height(Rotated(t, balance)) < Height(t)
    {
      ghost var tc, far := Kid(t, left), Kid(t, 1 - left);
      RotatedWhole(c, t, balance);
      OnceShape(t, balance);
      var childBal := child.balance + Weight(1 - left);
      RotateOnce(node, child, childBal, left, Kid(tc, left), tc.balance, Kid(tc, 1 - left), t.balance, far, c, S);
      shrunk := childBal == 0;
    }

    /** The child leans to the other side: its inner child is lifted over both. */
    method RotateHeavy(node: Node, child: Node, left: Side, ghost c: Ctx, ghost t: Tree, ghost balance: int,
                       ghost S: set<Node>, ghost items: seq<Node>)
      requires Rotatable(t, balance) && node == t.node && Linked(Plug(c, t), S, items)
      requires left == HeavySide(balance) && child == Kid(t, left).node && Kid(t, left).balance == Weight(1 - left)
      modifies this`root, S`child, S`parent, S`childIndex, S`balance
      ensures Linked(Plug(c, Rotated(t, balance)), S, items)
    {
      ghost var tc, far := Kid(t, left), Kid(t, 1 - left);
      ghost var m := Kid(tc, 1 - left);
      RotatedWhole(c, t, balance);
      assert t == Join(left, Join(left, Kid(tc, left), child, tc.balance, m), node, t.balance, far);
      LinkedParts(left, Kid(tc, left), child, tc.balance, m, node, t.balance, far, c, Snap(S));
      var gchild := child.child.At(1 - left);
      assert m == Join(left, Kid(m, left), gchild, m.balance, Kid(m, 1 - left));
      RotateTwice(node, child, gchild, left, Kid(tc, left), tc.balance, Kid(m, left), m.balance, Kid(m, 1 - left),
        t.balance,
                  far, c, S);
    }

    /**
      Restore balance at the subtree `t` whose balance has become `balance`.  The result
      says whether the subtree lost height.
     */
    method Rotate(node: Node, balance: int, ghost c: Ctx, ghost t: Tree, ghost S: set<Node>, ghost items: seq<Node>)
      returns (shrunk: bool)
      requires Rotatable(t, balance) && node == t.node && Linked(Plug(c, t), S, items)
      modifies this`root, S`child, S`parent, S`childIndex, S`balance
      ensures Linked(Plug(c, Rotated(t, balance)), S, items)
      ensures shrunk <==> Height(Rotated(t, balance)) < Height(t)
    {
      var left := if balance < 0 then 0 else 1;
      var right := 1 - left;
      var leftHeavy := if balance < 0 then -1 else 1;
      var rightHeavy := -leftHeavy;
      RotatedAvl(t, balance);
      RotatedWhole(c, t, balance);
      ChildOf(node, left, c, t, balance, S, items);
      var child := node.child.At(left);
      if child.balance != rightHeavy {
        shrunk := RotateLight(node, child, left, c, t, balance, S, items);
      } else {
        RotateHeavy(node, child, left, c, t, balance, S, items);
        shrunk := true;
      }
    }

    /** Store a new balance at the node above the hole that `t` fills. */
    method SetBalance(node: Node, nb: int, ghost c: Ctx, ghost t: Tree, ghost S: set<Node>, ghost items: seq<Node>)
      requires c.Hole? && node == c.node && Linked(Plug(c, t), S, items)
      modifies S`balance
      ensures Linked(Plug(c.up, Join(c.side, t, node, nb, c.sibling)), S, items)
    {
      ghost var h := Snap(S);
      PlugDistinct(c, t);
      node.balance := nb;
      BalanceStored(c.up, c.side, node, c.balance, nb, c.sibling, t, h, Snap(S));
      SameInorder(Plug(c, t), Plug(c.up, Join(c.side, t, node, nb, c.sibling)));
    }

    /** Link a new leaf into the hole of `c`. */
    method LinkLeaf(node: Node, parent: Node?, which: Side, ghost c: Ctx, ghost S: set<Node>, ghost items: seq<Node>)
      requires Linked(Plug(c, Leaf), S, items) && node !in S
      requires parent == CtxParent(c) && which == CtxSide(c)
      modifies this`root, S`child, node`child, node`parent, node`childIndex, node`balance
      ensures Linked(Plug(c, Branch(Leaf, node, 0, Leaf)), S + {node}, Before(c) + [node] + After(c))
    {
      ghost var h := Snap(S);
      PlugDistinct(c, Leaf);
      PlugRoot(c, Leaf);
      PlugRoot(c, Branch(Leaf, node, 0, Leaf));
      node.child := Children(null, null);
      node.childIndex := which;
      node.balance := 0;
      node.parent := parent;
      if parent != null {
        parent.child := parent.child.With(which, node);
      } else {
        root := node;
      }
      LeafLinked(c, node, h, Snap(S + {node}));
    }

    /** What the node above a hole stores. */
    lemma Above(c: Ctx, t: Tree, S: set<Node>, items: seq<Node>)
      requires c.Hole? && Linked(Plug(c, t), S, items)
      ensures c.node in S && c.node.balance == c.balance
      ensures c.node.parent == CtxParent(c.up) && c.node.childIndex == CtxSide(c.up)
    {
      PlugDistinct(c, t);
      PlugRep(c, t, Snap(S));
    }

    /** The way up after an insertion: `t`, one taller than what it replaced, fills the hole of `c`. */
    method ClimbInserted(parent: Node?, whichChild: Side, ghost c0: Ctx, ghost t0: Tree, ghost S: set<Node>,
                         ghost items: seq<Node>)
      requires Linked(Plug(c0, t0), S, items)
      requires Grown(c0, t0)
      requires parent == CtxParent(c0) && whichChild == CtxSide(c0)
      modifies this`root, this`shape, S`child, S`parent, S`childIndex, S`balance
      ensures Linked(shape, S, items) && Avl(shape)
    {
      ghost var c, t := c0, t0;
      var node := parent;
      var which := whichChild;
      while node != null
        invariant Linked(Plug(c, t), S, items)
        invariant Grown(c, t)
        invariant node == CtxParent(c) && which == CtxSide(c)
        decreases c
      {
        Above(c, t, S, items);
        GrowStep(c.up, c.side, node, c.balance, c.sibling, t);
        var oldBalance := node.balance;
        var newBalance := oldBalance + Weight(which);
        if newBalance == 0 {
          SetBalance(node, 0, c, t, S, items);
          c, t := c.up, Join(c.side, t, node, 0, c.sibling);
          break;
        }
        if oldBalance != 0 {
          c, t := c.up, Join(c.side, t, node, c.balance, c.sibling);
          var _ := Rotate(node, newBalance, c, t, S, items);
          t := Rotated(t, newBalance);
          break;
        }
        SetBalance(node, newBalance, c, t, S, items);
        c, t := c.up, Join(c.side, t, node, newBalance, c.sibling);
        node, which := node.parent, node.childIndex;
      }
      PlugAvl(c, t);
      shape := Plug(c, t);
    }

    /** The empty place `parent`, `which` lies at position `p` of the order. */
    ghost predicate GapAt(parent: Node?, which: Side, p: nat)
      reads this`shape, Opt(parent)`child
    {
      if parent == null then p == 0 && which == 0 && shape == Leaf
      else which <= p < |Items()| + which && Items()[p - which] == parent && parent.child.At(which) == null
    }

    /** Insert `node` at an empty place. */
    method Insert(node: Node, parent: Node?, which: Side, ghost p: nat)
      requires Valid() && node !in Nodes(shape) && GapAt(parent, which, p)
      modifies this`root, this`numnodes, this`shape
      modifies Nodes(shape)`child, Nodes(shape)`parent, Nodes(shape)`childIndex, Nodes(shape)`balance
      modifies node`child, node`parent, node`childIndex, node`balance
      ensures Valid() && Nodes(shape) == old(Nodes(shape)) + {node} && numnodes == old(numnodes) + 1
      ensures Items() == old(Items())[..p] + [node] + old(Items())[p..]
    {
      ghost var S := Nodes(shape) + {node};
      NodesInorder(shape);
      ghost var c := GapHole(shape, parent, which, p, Snap(Nodes(shape)));
      ghost var items := Before(c) + [node] + After(c);
      SizeInorder(shape);
      numnodes := numnodes + 1;
      LinkLeaf(node, parent, which, c, Nodes(shape), Items());
      ClimbInserted(parent, which, c, Branch(Leaf, node, 0, Leaf), S, items);
      SizeInorder(shape);
    }

    /** First half of the swap: `tmp` becomes a copy of `node`, and `node` goes to the place of `delete`. */
    method MoveUp(delete: Node, node: Node, tmp: Node, left: Side)
      requires delete.child.left != null && delete.child.right != null && delete.child.left != delete.child.right
      requires delete.child.At(1 - left) != node && delete !in {delete.child.left, delete.child.right, node}
      requires delete.parent !in {delete, node} &&
        tmp !in {delete, node, delete.parent, delete.child.left, delete.child.right}
      modifies this`root, Opt(delete.parent)`child
      modifies {node, tmp}`child, {node, tmp}`parent, {node, tmp}`childIndex, {node, tmp}`balance
      modifies delete.child.left`parent, delete.child.right`parent
      ensures tmp.child == old(node.child) && tmp.childIndex == old(node.childIndex) && tmp.balance == old(node.balance)
      ensures tmp.parent == if delete.child.At(left) == node then node else old(node.parent)
      ensures node.child == if delete.child.At(left) == node then delete.child.With(left, tmp) else delete.child
      ensures node.parent == delete.parent && node.childIndex == delete.childIndex && node.balance == delete.balance
      ensures root == if delete.parent == null then node else old(root)
      ensures delete.parent != null ==> delete.parent.child == old(delete.parent.child).With(delete.childIndex, node)
      ensures delete.child.At(left) != node ==> delete.child.At(left).parent == node
      ensures delete.child.At(1 - left).parent == node
    {
      var right := 1 - left;
      tmp.child, tmp.parent, tmp.childIndex, tmp.balance := node.child, node.parent, node.childIndex, node.balance;

      node.child, node.parent, node.childIndex, node.balance :=
        delete.child, delete.parent, delete.childIndex, delete.balance;
      if node.child.At(left) == node {
        node.child := node.child.With(left, tmp);
      }

      var parent := node.parent;
      if parent != null {
        parent.child := parent.child.With(node.childIndex, node);
      } else {
        root := node;
      }
      node.child.At(left).parent := node;
      node.child.At(right).parent := node;
    }

    /** Second half of the swap: the neighbours of `tmp`, which has at most one child, point at it. */
    method PutPlaceholder(tmp: Node)
      requires tmp.parent != null && tmp.parent != tmp && tmp.child.left != tmp && tmp.child.right != tmp
      requires tmp.child.left == null || tmp.child.right == null
      modifies tmp.parent`child, Opt(tmp.child.left)`parent, Opt(tmp.child.right)`parent
      ensures tmp.parent.child == old(tmp.parent.child).With(tmp.childIndex, tmp)
      ensures tmp.child.left != null ==> tmp.child.left.parent == tmp
      ensures tmp.child.right != null ==> tmp.child.right.parent == tmp
    {
      var parent := tmp.parent;
      parent.child := parent.child.With(tmp.childIndex, tmp);
      var whichChild: Side := if tmp.child.right != null then 1 else 0;
      if tmp.child.At(whichChild) != null {
        tmp.child.At(whichChild).parent := tmp;
      }
    }

    /**
      Move `node` to the place of `delete`, which has two children, and put a placeholder
      where `node` was.
     */
    method SwapOut(delete: Node, node: Node, left: Side, ghost S: set<Node>) returns (tmp: Node)
      requires SwapReady(Snap(S), delete, node, left)
      modifies this`root, S`child, S`parent, S`childIndex, S`balance
      ensures fresh(tmp) && tmp.child.At(1 - left) == null
      ensures SwapStep(old(Snap(S)), Snap(S - {delete} + {tmp}), delete, node, tmp, left)
      ensures root == if old(delete.parent) == null then node else old(root)
    {
      ghost var h := Snap(S);
      tmp := MoveOut(delete, node, left, S);
      ghost var T := S + {tmp};
      ghost var g := Snap(T);
      PutIn(tmp, T);
      HalvesSwap(h, g, Snap(T), Snap(S - {delete} + {tmp}), delete, node, tmp, left);
    }

    method MoveOut(delete: Node, node: Node, left: Side, ghost S: set<Node>) returns (tmp: Node)
      requires SwapReady(Snap(S), delete, node, left)
      modifies this`root, S`child, S`parent, S`childIndex, S`balance
      ensures fresh(tmp) && MoveStep(old(Snap(S)), Snap(S + {tmp}), delete, node, tmp, left)
      ensures root == if old(delete.parent) == null then node else old(root)
    {
      tmp := new Node(0);
      MoveUp(delete, node, tmp, left);
    }

    method PutIn(tmp: Node, ghost T: set<Node>)
      requires tmp in T && tmp.parent != null && tmp.parent in T && tmp.parent != tmp
      requires Opt(tmp.child.left) <= T - {tmp} && Opt(tmp.child.right) <= T - {tmp}
      requires tmp.child.left == null || tmp.child.right == null
      modifies T`child, T`parent
      ensures PutStep(old(Snap(T)), Snap(T), tmp)
    {
      PutPlaceholder(tmp);
    }

    /** From `start` go towards `side` as far as possible. */
    method Extreme(start: Node, side: Side, ghost c0: Ctx, ghost t0: Tree)
      returns (node: Node, ghost c: Ctx, ghost t: Tree)
      requires Linked(shape, Nodes(shape), Items())
      requires Plug(c0, t0) == shape && t0.Branch? && t0.node == start
      ensures Linked(shape, Nodes(shape), Items())
      ensures Plug(c, t) == shape && t.Branch? && t.node == node && node in Nodes(t0)
      ensures Kid(t, side) == Leaf && node.child.At(side) == null
      ensures if side == 1 then After(c) == After(c0) else Before(c) == Before(c0)
    {
      node, c, t := start, c0, t0;
      PlugDistinct(c, t);
      PlaceLinks(c, t, Snap(Nodes(shape)));
      while node.child.At(side) != null
        invariant Plug(c, t) == shape && t.Branch? && t.node == node && node in Nodes(shape)
        invariant Nodes(t) <= Nodes(t0)
        invariant node.child == Children(RootNode(t.left), RootNode(t.right))
        invariant if side == 1 then After(c) == After(c0) else Before(c) == Before(c0)
        decreases t
      {
        assert t == Join(side, Kid(t, side), node, t.balance, Kid(t, 1 - side));
        c, t := Hole(c, side, node, t.balance, Kid(t, 1 - side)), Kid(t, side);
        node := node.child.At(side);
        PlugDistinct(c, t);
        PlaceLinks(c, t, Snap(Nodes(shape)));
      }
    }

    /** Connect the parent of `delete`, which has at most one child, to that child. */
    method Unlink(delete: Node, ghost c: Ctx, ghost s: Tree, ghost d: Side, ghost S: set<Node>, ghost items: seq<Node>)
      returns (parent: Node?, whichChild: Side)
      requires Linked(Plug(c, s), S, items) && s.Branch? && s.node == delete && Kid(s, 1 - d) == Leaf
      modifies this`root, S`child, S`parent, S`childIndex
      ensures Linked(Plug(c, Kid(s, d)), S - {delete}, Before(c) + Inorder(Kid(s, d)) + After(c))
      ensures parent == CtxParent(c) && whichChild == CtxSide(c)
    {
      ghost var h := Snap(S);
      ghost var x := Kid(s, d);
      PlaceLinks(c, s, h);
      PlugDistinct(c, s);
      PlugRoot(c, s);
      PlugRoot(c, x);
      parent := delete.parent;
      whichChild := delete.childIndex;
      var node := if delete.child.left != null then delete.child.left else delete.child.right;
      assert node == RootNode(x);

      if node != null {
        node.parent := parent;
        node.childIndex := whichChild;
      }
      if parent == null {
        root := node;
      } else {
        parent.child := parent.child.With(whichChild, node);
      }
      LeafUnlinked(c, s, d, h, Snap(S - {delete}));
    }

    /** One step of the way up after a removal: settle the node, or go on because it shrank too. */
    method ClimbStep(node: Node, whichChild0: Side, ghost c0: Ctx, ghost t0: Tree, ghost S: set<Node>,
                     ghost items: seq<Node>)
      returns (parent: Node?, whichChild: Side, more: bool, ghost c: Ctx, ghost t: Tree)
      requires Linked(Plug(c0, t0), S, items) && Shrunk(c0, t0) && c0.Hole?
      requires node == CtxParent(c0) && whichChild0 == CtxSide(c0)
      modifies this`root, S`child, S`parent, S`childIndex, S`balance
      ensures c == c0.up && Linked(Plug(c, t), S, items)
      ensures if more then Shrunk(c, t) && parent == CtxParent(c) && whichChild == CtxSide(c) else Settled(c, t)
    {
      Above(c0, t0, S, items);
      ShrinkStep(c0.up, c0.side, c0.node, c0.balance, c0.sibling, t0);
      var oldBalance := node.balance;
      var newBalance := oldBalance - Weight(whichChild0);
      parent, whichChild := node.parent, node.childIndex;
      c := c0.up;
      if oldBalance == 0 || newBalance == 0 {
        SetBalance(node, newBalance, c0, t0, S, items);
        t := Join(c0.side, t0, node, newBalance, c0.sibling);
        more := oldBalance != 0;
      } else {
        ghost var v := Join(c0.side, t0, node, c0.balance, c0.sibling);
        more := Rotate(node, newBalance, c, v, S, items);
        t := Rotated(v, newBalance);
      }
    }

    /** The way up after a removal: `t0`, one shorter than what it replaced, fills the hole of `c0`. */
    method ClimbRemoved(parent0: Node?, whichChild0: Side, ghost c0: Ctx, ghost t0: Tree, ghost S: set<Node>,
                        ghost items: seq<Node>)
      requires Linked(Plug(c0, t0), S, items) && Shrunk(c0, t0)
      requires parent0 == CtxParent(c0) && whichChild0 == CtxSide(c0)
      modifies this`root, this`shape, S`child, S`parent, S`childIndex, S`balance
      ensures Linked(shape, S, items) && Avl(shape)
    {
      ghost var c, t := c0, t0;
      var parent := parent0;
      var whichChild := whichChild0;
      while parent != null
        invariant Linked(Plug(c, t), S, items)
        invariant Shrunk(c, t)
        invariant parent == CtxParent(c) && whichChild == CtxSide(c)
        decreases c
      {
        var more: bool;
        parent, whichChild, more, c, t := ClimbStep(parent, whichChild, c, t, S, items);
        if !more {
          break;
        }
      }
      PlugAvl(c, t);
      shape := Plug(c, t);
    }

    /** The neighbour in the order on the taller side of `delete`, which has two children. */
    method Neighbour(delete: Node, ghost c: Ctx, ghost s: Tree)
      returns (node: Node, left: Side, ghost cf: Ctx, ghost m: Tree)
      requires Valid() && Plug(c, s) == shape && s.Branch? && s.node == delete && s.left.Branch? && s.right.Branch?
      ensures m.Branch? && m.node == node && Plug(cf, m) == shape && Kid(m, 1 - left) == Leaf
      ensures node in Nodes(Kid(s, left)) && node in Nodes(shape) && node.child.At(1 - left) == null
      ensures var above := Hole(c, left, delete, s.balance, Kid(s, 1 - left));
              if left == 0 then After(cf) == After(above) else Before(cf) == Before(above)
    {
      PlaceLinks(c, s, Snap(Nodes(shape)));
      PlugDistinct(c, s);
      left := if delete.balance <= 0 then 0 else 1;
      var right := 1 - left;
      ghost var above := Hole(c, left, delete, s.balance, Kid(s, right));
      assert s == Join(left, Kid(s, left), delete, s.balance, Kid(s, right));
      node, cf, m := Extreme(delete.child.At(left), right, above, Kid(s, left));
    }

    /**
      Swap `delete`, which has two children, with a neighbour in the order, and put a
      placeholder in the neighbour's old place.
     */
    method SwapWithNeighbour(delete: Node, ghost c: Ctx, ghost s: Tree)
      returns (tmp: Node, ghost u: Tree, ghost p: nat, ghost q: nat)
      requires Valid() && Plug(c, s) == shape && s.Branch? && s.node == delete && s.left.Branch? && s.right.Branch?
      modifies this`root
      modifies Nodes(shape)`child, Nodes(shape)`parent, Nodes(shape)`childIndex, Nodes(shape)`balance
      ensures fresh(tmp) && (tmp.child.left == null || tmp.child.right == null)
      ensures Linked(u, Nodes(shape) - {delete} + {tmp}, Inorder(u)) && Avl(u)
      ensures p < |Items()| && Items()[p] == delete && q < |Inorder(u)| && Inorder(u)[q] == tmp
      ensures Without(Inorder(u), q) == Without(Items(), p)
    {
      ghost var S := Nodes(shape);
      ghost var h := Snap(S);
      var node, left, cf, m := Neighbour(delete, c, s);
      assert SwapReady(h, delete, node, left) by { CanSwap(c, s, node, left, h); }
      tmp := SwapOut(delete, node, left, S);
      p, q := SwapShown(c, s, left, cf, m, tmp, h, S);
      u := Relabel(shape, delete, node, tmp);
    }

    /** The heap after the swap shows the renamed tree. */
    lemma SwapShown(c: Ctx, s: Tree, left: Side, cf: Ctx, m: Tree, tmp: Node, h: Links, S: set<Node>)
      returns (p: nat, q: nat)
      requires Plug(c, s) == shape && S == Nodes(shape) == h.Keys && tmp !in S
      requires Rep(shape, null, 0, h) && Distinct(shape) && Avl(shape)
      requires s.Branch? && s.left.Branch? && s.right.Branch?
      requires m.Branch? && Plug(cf, m) == shape && m.node in Nodes(Kid(s, left)) && Kid(m, 1 - left) == Leaf
      requires var above := Hole(c, left, s.node, s.balance, Kid(s, 1 - left));
               if left == 0 then After(cf) == After(above) else Before(cf) == Before(above)
      requires SwapReady(h, s.node, m.node, left)
      requires SwapStep(h, Snap(S - {s.node} + {tmp}), s.node, m.node, tmp, left)
      requires root == if h[s.node].parent == null then m.node else RootNode(shape)
      ensures var u := Relabel(shape, s.node, m.node, tmp);
              Linked(u, S - {s.node} + {tmp}, Inorder(u)) && Avl(u) &&
              p < |Items()| && Items()[p] == s.node && q < |Inorder(u)| && Inorder(u)[q] == tmp &&
              Without(Inorder(u), q) == Without(Items(), p)
    {
      p, q := SwapMade(c, s, left, cf, m, tmp, h, Snap(S - {s.node} + {tmp}));
    }

    /** Take out `delete`, which has at most one child, and restore balance on the way up. */
    method RemoveShallow(delete: Node, ghost u: Tree, ghost S: set<Node>, ghost q: nat)
      requires Linked(u, S, Inorder(u)) && Avl(u) && delete in S
      requires delete.child.left == null || delete.child.right == null
      requires q < |Inorder(u)| && Inorder(u)[q] == delete
      modifies this`root, this`shape, S`child, S`parent, S`childIndex, S`balance
      ensures Linked(shape, S - {delete}, Without(Inorder(u), q)) && Avl(shape)
    {
      ghost var c, s, d := ShallowPlan(u, q, Snap(S));
      var parent, whichChild := Unlink(delete, c, s, d, S, Inorder(u));
      ClimbRemoved(parent, whichChild, c, Kid(s, d), S - {delete}, Without(Inorder(u), q));
    }

    /** A node with two children changes places with a neighbour first; its placeholder goes instead. */
    method MakeShallow(data: Node) returns (delete: Node, ghost u: Tree, ghost p: nat, ghost q: nat)
      requires Valid() && data in Nodes(shape)
      modifies this`root
      modifies Nodes(shape)`child, Nodes(shape)`parent, Nodes(shape)`childIndex, Nodes(shape)`balance
      ensures delete == data || fresh(delete)
      ensures delete.child.left == null || delete.child.right == null
      ensures Linked(u, Nodes(shape) - {data} + {delete}, Inorder(u)) && Avl(u)
      ensures p < |Items()| && Items()[p] == data && q < |Inorder(u)| && Inorder(u)[q] == delete
      ensures Without(Inorder(u), q) == Without(Items(), p)
    {
      ghost var c, s;
      c, s, p := PlaceOf(shape, data, Snap(Nodes(shape)));
      if data.child.left != null && data.child.right != null {
        delete, u, p, q := SwapWithNeighbour(data, c, s);
      } else {
        delete, u, q := data, shape, p;
        assert Nodes(shape) - {data} + {data} == Nodes(shape);
      }
    }

    /** Remove the node `data` from the tree. */
    method Remove(data: Node)
      requires Valid() && data in Nodes(shape)
      modifies this`root, this`numnodes, this`shape
      modifies Nodes(shape)`child, Nodes(shape)`parent, Nodes(shape)`childIndex, Nodes(shape)`balance
      ensures Valid() && Nodes(shape) == old(Nodes(shape)) - {data} && numnodes == old(numnodes) - 1
      ensures exists p :: 0 <= p < |old(Items())| && old(Items())[p] == data && Items() == Without(old(Items()), p)
    {
      ghost var S, items, was := Nodes(shape), Items(), shape;
      assert allocated(S);
      var delete;
      ghost var u, p, q;
      delete, u, p, q := MakeShallow(data);
      SizeInorder(was);
      numnodes := numnodes - 1;
      RemoveShallow(delete, u, S - {data} + {delete}, q);
      SizeInorder(shape);
      assert 0 <= p < |items| && items[p] == data && Items() == Without(items, p);
    }

    // ----- Searching and walking -----

    /** The nodes are in strictly ascending order of their data. */
    ghost predicate Sorted()
      reads this`shape, Elems(Items())`data
    {
      Ascending(Keys(Items()), compar)
    }

    /** Where in the order the search stands when it has come to `t` in the hole of `c`. */
    lemma SearchAt(c: Ctx, t: Tree) returns (m: nat)
      requires Plug(c, t) == shape && t.Branch?
      ensures m == |Before(c)| + |Inorder(t.left)| < |Items()| - |After(c)| && Items()[m] == t.node
      ensures |Before(Hole(c, 0, t.node, t.balance, t.right))| == |Before(c)|
      ensures |Items()| - |After(Hole(c, 0, t.node, t.balance, t.right))| == m
      ensures |Before(Hole(c, 1, t.node, t.balance, t.left))| == m + 1
      ensures |After(Hole(c, 1, t.node, t.balance, t.left))| == |After(c)|
    {
      PlugInorder(c, t);
      m := |Before(c)| + |Inorder(t.left)|;
    }

    /**
      Search for `value`.  When it is not there, the place where it would be inserted is
      given instead.
     */
    method Find(value: int) returns (found: Node?, parent: Node?, child: Side, ghost p: nat)
      requires Valid() && Comparator(compar) && Sorted()
      ensures Valid() && Sorted()
      ensures found != null ==> found in Items() && compar(value, found.data) == 0
      ensures found == null ==> GapAt(parent, child, p) && Bounds(Keys(Items()), p, p, value, compar)
    {
      ghost var c, t, ks := Top, shape, Keys(Items());
      ghost var h := Snap(Nodes(shape));
      var node := root;
      parent, child, p := null, 0, 0;
      while node != null
        invariant Plug(c, t) == shape && node == RootNode(t)
        invariant parent == CtxParent(c) && child == CtxSide(c)
        invariant Bounds(ks, |Before(c)|, |ks| - |After(c)|, value, compar)
        decreases t
      {
        PlaceLinks(c, t, h);
        ghost var m := SearchAt(c, t);
        assert ks[m] == node.data;
        Narrow(ks, |Before(c)|, m, |ks| - |After(c)|, value, compar);
        parent := node;
        var diff := compar(value, node.data);
        if diff == 0 {
          return node, parent, child, p;
        }
        child := if diff < 0 then 0 else 1;
        c, t := Hole(c, child, node, t.balance, Kid(t, 1 - child)), Kid(t, child);
        node := node.child.At(child);
      }
      found, p := null, |Before(c)|;
      VacantGap(c);
    }

    lemma VacantGap(c: Ctx)
      requires Valid() && Plug(c, Leaf) == shape
      ensures GapAt(CtxParent(c), CtxSide(c), |Before(c)|) && |Before(c)| + |After(c)| == |Items()|
    {
      PlugInorder(c, Leaf);
      if c.Hole? {
        var m := HolePosition(c);
        PlugRep(c, Leaf, Snap(Nodes(shape)));
        PlugDistinct(c, Leaf);
      }
    }

    /** What precedes position `p` for side 0, or follows it for side 1. */
    ghost function Beside(p: nat, side: Side): Node?
      reads this`shape
    {
      if 0 <= p + Weight(side) < |Items()| then Items()[p + Weight(side)] else null
    }

    /** One step up the tree, in terms of positions in the order. */
    lemma NextUp(c: Ctx, s: Tree)
      requires Plug(c, s) == shape
      ensures c.Top? ==> |Before(c)| == 0 && |Before(c)| + |Inorder(s)| == |Items()|
      ensures c.Hole? && c.side == 1 ==>
                0 < |Before(c)| <= |Items()| && Items()[|Before(c)| - 1] == c.node &&
                |Before(c.up)| + |Inorder(Join(1, s, c.node, c.balance, c.sibling))| == |Before(c)| + |Inorder(s)|
      ensures c.Hole? && c.side == 0 ==>
                |Before(c.up)| == |Before(c)| &&
                |Before(c)| + |Inorder(s)| < |Items()| && Items()[|Before(c)| + |Inorder(s)|] == c.node
    {
      PlugInorder(c, s);
      if c.Hole? {
        JoinInorder(c.side, s, c.node, c.balance, c.sibling);
        if c.side == 0 {
          assert After(c)[0] == c.node;
        } else {
          assert Before(c)[|Before(c)| - 1] == c.node;
        }
      }
    }

    /** Return through parents until coming from the side away from `left`. */
    method WalkUp(start: Node, left: Side, ghost c0: Ctx, ghost s0: Tree) returns (r: Node?)
      requires Valid() && Plug(c0, s0) == shape && s0.Branch? && s0.node == start
      ensures Valid()
      ensures var q := if left == 0 then |Before(c0)| - 1 else |Before(c0)| + |Inorder(s0)|;
              r == if 0 <= q < |Items()| then Items()[q] else null
    {
      ghost var c, s, h := c0, s0, Snap(Nodes(shape));
      var node := start;
      while true
        invariant Plug(c, s) == shape && s.Branch? && s.node == node
        invariant if left == 0 then |Before(c)| == |Before(c0)|
                  else |Before(c)| + |Inorder(s)| == |Before(c0)| + |Inorder(s0)|
        decreases c
      {
        PlaceLinks(c, s, h);
        NextUp(c, s);
        var wasChild := node.childIndex;
        if node.parent == null {
          return null;
        }
        node := node.parent;
        if wasChild == 1 - left {
          return node;
        }
        c, s := c.up, Join(c.side, s, c.node, c.balance, c.sibling);
      }
    }

    /** The node before `oldnode` in the order, or with `left` = 1 the node after it. */
    method Walk(oldnode: Node?, left: Side) returns (r: Node?)
      requires Valid() && (oldnode != null ==> oldnode in Nodes(shape))
      ensures Valid()
      ensures oldnode == null ==> r == null
      ensures forall p :: 0 <= p < |Items()| && Items()[p] == oldnode ==> r == Beside(p, left)
    {
      if oldnode == null {
        return null;
      }
      var node: Node := oldnode;
      ghost var c, s, p := PlaceOf(shape, node, Snap(Nodes(shape)));
      if node.child.At(left) != null {
        r := WalkDown(node, left, c, s, p);
      } else {
        r := WalkUp(node, left, c, s);
      }
      assert r == Beside(p, left);
      DistinctNoDup(shape);
    }

    /** One step to the side and then the other way as far as possible. */
    method WalkDown(node: Node, left: Side, ghost c: Ctx, ghost s: Tree, ghost p: nat) returns (r: Node)
      requires Valid() && Plug(c, s) == shape && s.Branch? && s.node == node && node.child.At(left) != null
      requires node.child == Children(RootNode(s.left), RootNode(s.right))
      requires p < |Items()| && Items()[p] == node
      ensures Valid() && r == Beside(p, left)
    {
      var right := 1 - left;
      ghost var above := Hole(c, left, node, s.balance, Kid(s, right));
      assert s == Join(left, Kid(s, left), node, s.balance, Kid(s, right));
      ghost var cf, m;
      r, cf, m := Extreme(node.child.At(left), right, above, Kid(s, left));
      ghost var p', q := Adjacent(c, s, left, cf, m);
      assert p' == p by { DistinctNoDup(shape); }
    }

    /** The lowest node, or with `side` = 1 the highest one. */
    method End(side: Side) returns (r: Node?)
      requires Valid()
      ensures Valid()
      ensures Items() == [] ==> r == null
      ensures Items() != [] ==> r == if side == 0 then Items()[0] else Items()[|Items()| - 1]
    {
      ghost var c, t, h := Top, shape, Snap(Nodes(shape));
      var node := root;
      r := null;
      while node != null
        invariant Plug(c, t) == shape && node == RootNode(t) && r == CtxParent(c) && (c.Hole? ==> c.side == side)
        invariant if side == 0 then Before(c) == [] else After(c) == []
        decreases t
      {
        PlaceLinks(c, t, h);
        assert t == Join(side, Kid(t, side), node, t.balance, Kid(t, 1 - side));
        r := node;
        c, t := Hole(c, side, node, t.balance, Kid(t, 1 - side)), Kid(t, side);
        node := node.child.At(side);
      }
      NextUp(c, Leaf);
      PlugInorder(c, Leaf);
    }

    /** `avl_first`. */
    method First() returns (r: Node?)
      requires Valid()
      ensures Valid()
      ensures r == if Items() == [] then null else Items()[0]
    {
      r := End(0);
    }

    /** `avl_last`. */
    method Last() returns (r: Node?)
      requires Valid()
      ensures Valid()
      ensures r == if Items() == [] then null else Items()[|Items()| - 1]
    {
      r := End(1);
    }

    /** The node right before or right after an empty place. */
    method Nearest(parent: Node?, child: Side, direction: Side, ghost p: nat) returns (r: Node?)
      requires Valid() && GapAt(parent, child, p)
      ensures Valid()
      ensures r == if direction == 0 then (if p > 0 then Items()[p - 1] else null)
                   else (if p < |Items()| then Items()[p] else null)
    {
      if parent == null {
        return null;
      }
      if child != direction {
        return parent;
      }
      NodesInorder(shape);
      r := Walk(parent, direction);
      assert r == Beside(p - child, direction);
    }

    /** The node visited as number `i` on the way through `items` towards `side`. */
    static ghost function Visit(items: seq<Node>, side: Side, i: nat): Node
      requires i < |items|
    {
      if side == 1 then items[i] else items[|items| - 1 - i]
    }

    /** Visit all nodes, from the first on with `side` = 1, from the last on with `side` = 0. */
    method Enumerate(side: Side) returns (s: seq<Node>)
      requires Valid()
      ensures |s| == |Items()| && forall i :: 0 <= i < |s| ==> s[i] == Visit(Items(), side, i)
    {
      assert allocated(Nodes(shape));
      var node := End(1 - side);
      ghost var items := Items();
      s := [];
      NodesInorder(shape);
      while node != null
        invariant Valid() && |s| <= |items|
        invariant forall i :: 0 <= i < |s| ==> s[i] == Visit(items, side, i)
        invariant node == if |s| == |items| then null else Visit(items, side, |s|)
        decreases |items| - |s|
      {
        assert allocated(Nodes(shape));
        s := s + [node];
        node := Walk(node, side);
        assert node == Beside(if side == 1 then |s| - 1 else |items| - |s|, side);
      }
    }

    // ----- Operations made of the others -----

    /** An insertion at the place that a search for the node's data gave keeps the order. */
    method InsertSorted(node: Node, parent: Node?, which: Side, ghost p: nat)
      requires Valid() && Comparator(compar) && Sorted() && node !in Nodes(shape) && GapAt(parent, which, p)
      requires Bounds(Keys(Items()), p, p, node.data, compar)
      modifies this`root, this`numnodes, this`shape
      modifies Nodes(shape)`child, Nodes(shape)`parent, Nodes(shape)`childIndex, Nodes(shape)`balance
      modifies node`child, node`parent, node`childIndex, node`balance
      ensures Valid() && Sorted() && Nodes(shape) == old(Nodes(shape)) + {node} && numnodes == old(numnodes) + 1
      ensures Items() == old(Items())[..p] + [node] + old(Items())[p..]
    {
      InsertAscends(Keys(Items()), p, node.data, compar);
      KeysInsert(Items(), p, node);
      ghost var after := Items()[..p] + [node] + Items()[p..];
      assert Ascending(Keys(after), compar);
      Insert(node, parent, which, p);
    }

    /** Add a node that compares equal to none in the tree. */
    method Add(node: Node) returns (ghost p: nat)
      requires Valid() && Comparator(compar) && Sorted() && node !in Nodes(shape)
      requires forall n | n in Items() :: compar(node.data, n.data) != 0
      modifies this`root, this`numnodes, this`shape
      modifies Nodes(shape)`child, Nodes(shape)`parent, Nodes(shape)`childIndex, Nodes(shape)`balance
      modifies node`child, node`parent, node`childIndex, node`balance
      ensures Valid() && Sorted() && Nodes(shape) == old(Nodes(shape)) + {node} && numnodes == old(numnodes) + 1
      ensures p <= |old(Items())| && Items() == old(Items())[..p] + [node] + old(Items())[p..]
    {
      assert allocated(Nodes(shape));
      ghost var items, S := Items(), Nodes(shape);
      assert allocated(items);
      var found, parent, child, q := Find(node.data);
      assert Items() == items && Nodes(shape) == S;
      assert found == null;
      p := q;
      InsertSorted(node, parent, child, p);
    }

    /**
      The empty place right before `here`, or with `direction` = 1 right after it.  When
      that child is taken, the neighbour on that side has the place free.
     */
    method PlaceBeside(here: Node, direction: Side, ghost p: nat) returns (node: Node, child: Side)
      requires Valid() && p < |Items()| && Items()[p] == here
      ensures Valid() && GapAt(node, child, p + direction)
    {
      NodesInorder(shape);
      ghost var c, s, m := PlaceOf(shape, here, Snap(Nodes(shape)));
      assert m == p by { DistinctNoDup(shape); }
      if here.child.At(direction) == null {
        return here, direction;
      }
      ghost var above := Hole(c, direction, here, s.balance, Kid(s, 1 - direction));
      assert s == Join(direction, Kid(s, direction), here, s.balance, Kid(s, 1 - direction));
      var inner, cf, t := Extreme(here.child.At(direction), 1 - direction, above, Kid(s, direction));
      ghost var p', q := Adjacent(c, s, direction, cf, t);
      assert p' == p by { DistinctNoDup(shape); }
      return inner, 1 - direction;
    }

    /** Insert right before `here`, or with `direction` = 1 right after it. */
    method InsertHere(newData: Node, here: Node, direction: Side, ghost p: nat)
      requires Valid() && newData !in Nodes(shape) && p < |Items()| && Items()[p] == here
      modifies this`root, this`numnodes, this`shape
      modifies Nodes(shape)`child, Nodes(shape)`parent, Nodes(shape)`childIndex, Nodes(shape)`balance
      modifies newData`child, newData`parent, newData`childIndex, newData`balance
      ensures Valid() && Nodes(shape) == old(Nodes(shape)) + {newData} && numnodes == old(numnodes) + 1
      ensures Items() == old(Items())[..p + direction] + [newData] + old(Items())[p + direction..]
    {
      var node, child := PlaceBeside(here, direction, p);
      Insert(newData, node, child, p + direction);
    }

    /** The closest node on one side of `value`, found the way `avl.h` shows. */
    method FindClosest(value: int, side: Side) returns (r: Node?)
      requires Valid() && Comparator(compar) && Sorted()
      ensures Valid() && Sorted()
      ensures Closest(Items(), value, side, r, compar)
    {
      var node, parent, child, p := Find(value);
      ghost var q := CutOf(Items(), Keys(Items()), node, p, value);
      r := NextToPlace(node, parent, child, side, q);
      CutClosest(Items(), q, if node == null then 0 else 1, value, side, compar);
    }

    /** The node beside a found node, or beside the place a search gave. */
    method NextToPlace(node: Node?, parent: Node?, child: Side, side: Side, ghost q: nat) returns (r: Node?)
      requires Valid() && if node != null then q < |Items()| && Items()[q] == node else GapAt(parent, child, q)
      ensures Valid() && Keys(Items()) == old(Keys(Items()))
      ensures var i := NextTo(q, if node == null then 0 else 1, side);
        r == if 0 <= i < |Items()| then Items()[i] else null
    {
      assert allocated(Items());
      if node != null {
        assert node in Nodes(shape) by { NodesInorder(shape); }
        r := Walk(node, side);
        assert r == Beside(q, side);
      } else {
        r := Nearest(parent, child, side, q);
      }
    }

    /** Where the order is cut by a value that was searched for. */
    lemma CutOf(items: seq<Node>, ks: seq<int>, node: Node?, p: nat, value: int) returns (q: nat)
      requires ks == Keys(items) && Comparator(compar) && Ascending(ks, compar)
      requires node != null ==> node in items && compar(value, node.data) == 0
      requires node == null ==> Bounds(ks, p, p, value, compar)
      ensures Cuts(ks, q, if node == null then 0 else 1, value, compar)
      ensures if node != null then q < |items| && items[q] == node else q == p
    {
      if node != null {
        q := KeyOf(items, node);
        EqualCuts(ks, q, value, compar);
      } else {
        q := p;
        SplitCuts(ks, p, value, compar);
      }
    }

    /** With the node out of place gone, the others ascend and none compares equal to it. */
    lemma ReadyToAdd(items: seq<Node>, p: nat, ks: seq<int>)
      requires Valid() && p < |items| && Items() == Without(items, p) && Keys(items) == ks
      requires AscendingBut(ks, p, compar) && Alone(ks, p, compar)
      ensures Sorted() && forall n | n in Items() :: compar(items[p].data, n.data) != 0
    {
      KeysWithout(items, p);
      NodesInorder(shape);
      forall n | n in Items() ensures compar(items[p].data, n.data) != 0 {
        var i := KeyOf(items, n);
      }
    }

    /** Remove the node out of place. */
    method TakeOut(obj: Node, ghost p: nat)
      requires Valid() && Comparator(compar) && p < |Items()| && Items()[p] == obj
      requires AscendingBut(Keys(Items()), p, compar) && Alone(Keys(Items()), p, compar)
      modifies this`root, this`numnodes, this`shape
      modifies Nodes(shape)`child, Nodes(shape)`parent, Nodes(shape)`childIndex, Nodes(shape)`balance
      ensures Valid() && Sorted() && Nodes(shape) == old(Nodes(shape)) - {obj} && numnodes == old(numnodes) - 1
      ensures forall n | n in Items() :: compar(obj.data, n.data) != 0
    {
      assert allocated(Nodes(shape));
      ghost var items, ks := Items(), Keys(Items());
      assert allocated(items);
      NodesInorder(shape);
      DistinctNoDup(shape);
      Remove(obj);
      assert Keys(items) == ks;
      assert Items() == Without(items, p);
      ReadyToAdd(items, p, ks);
    }

    /** Put a node whose data changed back where it belongs. */
    method Reinsert(obj: Node, ghost p: nat)
      requires Valid() && Comparator(compar) && p < |Items()| && Items()[p] == obj
      requires AscendingBut(Keys(Items()), p, compar) && Alone(Keys(Items()), p, compar)
      modifies this`root, this`numnodes, this`shape
      modifies Nodes(shape)`child, Nodes(shape)`parent, Nodes(shape)`childIndex, Nodes(shape)`balance
      ensures Valid() && Sorted() && Nodes(shape) == old(Nodes(shape)) && numnodes == old(numnodes)
    {
      assert allocated(Nodes(shape));
      NodesInorder(shape);
      assert obj in Nodes(shape);
      TakeOut(obj, p);
      var _ := Add(obj);
    }

    /** The element out of place, if there is one, may be put back: it equals no other. */
    ghost predicate Movable(p: nat)
      requires Valid() && p < |Items()|
      reads this`root, this`numnodes, this`shape, Nodes(shape), Elems(Items())`data
    {
      var ks := Keys(Items());
      Misplaced(ks, p, 0, compar) || Misplaced(ks, p, 1, compar) ==> Alone(ks, p, compar)
    }

    /**
      Reinsert `obj`, whose data may have changed, if it is out of order.  The result says
      whether it was.  Next to an equal one it stays where it is.
     */
    method Update(obj: Node, ghost p: nat) returns (moved: bool)
      requires Valid() && Comparator(compar) && p < |Items()| && Items()[p] == obj
      requires AscendingBut(Keys(Items()), p, compar) && Movable(p)
      modifies this`root, this`numnodes, this`shape
      modifies Nodes(shape)`child, Nodes(shape)`parent, Nodes(shape)`childIndex, Nodes(shape)`balance
      ensures Valid() && Nodes(shape) == old(Nodes(shape)) && numnodes == old(numnodes)
      ensures moved <==> !old(NotDescending(Keys(Items()), compar))
      ensures moved || old(Alone(Keys(Items()), p, compar)) ==> Sorted()
      ensures !moved ==> Items() == old(Items()) && NotDescending(Keys(Items()), compar)
    {
      assert allocated(Nodes(shape));
      NodesInorder(shape);
      MisplacedTells(p);
      var out := OutOfPlace(obj, 0, p);
      if !out {
        out := OutOfPlace(obj, 1, p);
      }
      if out {
        Reinsert(obj, p);
      }
      moved := out;
    }

    /** Is the data beyond that of the neighbour on that side? */
    method OutOfPlace(obj: Node, side: Side, ghost p: nat) returns (out: bool)
      requires Valid() && p < |Items()| && Items()[p] == obj
      ensures Valid() && (out <==> Misplaced(Keys(Items()), p, side, compar))
    {
      NodesInorder(shape);
      var neighbour := Walk(obj, side);
      assert neighbour == Beside(p, side);
      out := neighbour != null &&
        if side == 0 then compar(obj.data, neighbour.data) < 0 else compar(obj.data, neighbour.data) > 0;
    }

    lemma MisplacedTells(p: nat)
      requires Valid() && Comparator(compar) && p < |Items()| && AscendingBut(Keys(Items()), p, compar)
      ensures var ks := Keys(Items());
        && (NotDescending(ks, compar) <==> !Misplaced(ks, p, 0, compar) && !Misplaced(ks, p, 1, compar))
        && (NotDescending(ks, compar) && Alone(ks, p, compar) ==> Sorted())
    {
      MisplacedAscends(Keys(Items()), p, compar);
      if Alone(Keys(Items()), p, compar) {
        AloneAscends(Keys(Items()), p, compar);
      }
    }

    /** As `Update`, for data that can only have moved towards `side`: only that neighbour is compared. */
    method UpdateToward(obj: Node, side: Side, ghost p: nat) returns (moved: bool)
      requires Valid() && Comparator(compar) && p < |Items()| && Items()[p] == obj
      requires AscendingBut(Keys(Items()), p, compar) && !Misplaced(Keys(Items()), p, 1 - side, compar) && Movable(p)
      modifies this`root, this`numnodes, this`shape
      modifies Nodes(shape)`child, Nodes(shape)`parent, Nodes(shape)`childIndex, Nodes(shape)`balance
      ensures Valid() && Nodes(shape) == old(Nodes(shape)) && numnodes == old(numnodes)
      ensures moved <==> !old(NotDescending(Keys(Items()), compar))
      ensures moved || old(Alone(Keys(Items()), p, compar)) ==> Sorted()
      ensures !moved ==> Items() == old(Items()) && NotDescending(Keys(Items()), compar)
    {
      assert allocated(Nodes(shape));
      NodesInorder(shape);
      MisplacedTells(p);
      moved := OutOfPlace(obj, side, p);
      if moved {
        Reinsert(obj, p);
      }
    }
  }
}
