/**
  One step of each of the loops of `lch/util/avl.c` that climb the tree, on the picture:
  what a change of one link or of one balance does to the whole tree.
 */
module AvlSteps {
  import opened AvlModel
  import opened AvlRotation

  /** Changing the balance stored at the node above the hole. */
  lemma BalanceStored(up: Ctx, s: Side, n: Node, b: int, nb: int, sib: Tree, t: Tree, h: Links, k: Links)
    requires var u := Plug(Hole(up, s, n, b, sib), t); Distinct(u) && Rep(u, null, 0, h) && Nodes(u) == h.Keys
    requires n in h && k.Keys == h.Keys && Agree(h, k, h.Keys - {n}) && k[n] == h[n].(balance := nb)
    ensures var u, v := Plug(Hole(up, s, n, b, sib), t), Plug(up, Join(s, t, n, nb, sib));
            Rep(v, null, 0, k) && Inorder(v) == Inorder(u) && RootNode(v) == RootNode(u)
  {
    var t0, t1 := Join(s, t, n, b, sib), Join(s, t, n, nb, sib);
    PlugRoot(up, t0);
    PlugRoot(up, t1);
    PlugInorder(up, t0);
    PlugInorder(up, t1);
    PlugDistinct(up, t0);
    DistinctJoin(s, t, n, b, sib);
    PlugRep(up, t0, h);
    RepJoin(s, t, n, b, sib, CtxParent(up), CtxSide(up), h);
    RepFrame(t, n, s, h, k);
    RepFrame(sib, n, 1 - s, h, k);
    CtxFrame(up, n, h, k);
    RepJoin(s, t, n, nb, sib, CtxParent(up), CtxSide(up), k);
    PlugRep(up, t1, k);
  }

  /** An empty child of `parent`, or an empty tree, is a hole. */
  lemma LocateHole(t: Tree, parent: Node?, which: Side, h: Links) returns (c: Ctx)
    requires Rep(t, null, 0, h)
    requires parent == null ==> t == Leaf && which == 0
    requires parent != null ==> parent in Nodes(t) && parent in h && h[parent].child.At(which) == null
    ensures Plug(c, Leaf) == t && CtxParent(c) == parent && CtxSide(c) == which
  {
    if parent == null {
      c := Top;
    } else {
      var c0, s := Locate(Top, t, parent);
      PlugRep(c0, s, h);
      assert s == Join(which, Leaf, parent, s.balance, Kid(s, 1 - which));
      c := Hole(c0, which, parent, s.balance, Kid(s, 1 - which));
    }
  }

  /** Where in the order a hole is: on side `c.side` of the node above it. */
  lemma HolePosition(c: Ctx) returns (p: nat)
    requires c.Hole?
    ensures var s := Inorder(Plug(c, Leaf));
            p < |s| && s[p] == c.node && Before(c) == s[..p + c.side] && After(c) == s[p + c.side..]
  {
    PlugInorder(c, Leaf);
    var s := Inorder(Plug(c, Leaf));
    assert s == Before(c) + After(c);
    if c.side == 0 {
      p := |Before(c)|;
      assert After(c)[0] == c.node;
    } else {
      p := |Before(c)| - 1;
      assert Before(c)[p] == c.node;
    }
  }

  /** The hole at a known position of the order, and the balance of the tree around it. */
  lemma GapHole(t: Tree, parent: Node?, which: Side, p: nat, h: Links) returns (c: Ctx)
    requires Rep(t, null, 0, h) && Distinct(t) && Avl(t) && Nodes(t) == h.Keys
    requires parent == null ==> p == 0 && which == 0 && t == Leaf
    requires parent != null ==> which <= p < |Inorder(t)| + which && Inorder(t)[p - which] == parent
    requires parent != null ==> parent in h && h[parent].child.At(which) == null
    ensures Plug(c, Leaf) == t && CtxParent(c) == parent && CtxSide(c) == which && CtxAvl(c, 0)
    ensures p <= |Inorder(t)| && Before(c) == Inorder(t)[..p] && After(c) == Inorder(t)[p..]
  {
    c := LocateHole(t, parent, which, h);
    PlugAvl(c, Leaf);
    if parent != null {
      var m := HolePosition(c);
      DistinctNoDup(t);
    }
  }

  /** Linking a new leaf into a hole. */
  lemma LeafLinked(c: Ctx, n: Node, h: Links, k: Links)
    requires var u := Plug(c, Leaf); Distinct(u) && Rep(u, null, 0, h) && Nodes(u) == h.Keys
    requires n !in h && k.Keys == h.Keys + {n}
    requires k[n] == Link(Children(null, null), CtxParent(c), CtxSide(c), 0)
    requires Refilled(c, n, h, k) && Agree(h, k, h.Keys - Owner(c))
    ensures var v := Plug(c, Branch(Leaf, n, 0, Leaf));
            Rep(v, null, 0, k) && Distinct(v) && Nodes(v) == k.Keys && Inorder(v) == Before(c) + [n] + After(c)
  {
    var t := Branch(Leaf, n, 0, Leaf);
    PlugDistinct(c, Leaf);
    PlugDistinct(c, t);
    PlugInorder(c, t);
    LeafRep(c, n, h, k);
  }

  lemma LeafRep(c: Ctx, n: Node, h: Links, k: Links)
    requires CtxDistinct(c) && Rep(Plug(c, Leaf), null, 0, h) && n in k && n !in CtxNodes(c)
    requires k[n] == Link(Children(null, null), CtxParent(c), CtxSide(c), 0)
    requires CtxNodes(c) == h.Keys && Refilled(c, n, h, k) && Agree(h, k, h.Keys - Owner(c))
    ensures Rep(Plug(c, Branch(Leaf, n, 0, Leaf)), null, 0, k)
  {
    PlugRep(c, Leaf, h);
    RefilledRep(c, null, n, h, k);
    PlugRep(c, Branch(Leaf, n, 0, Leaf), k);
  }

  /** Taking out a node with at most one child: its child `x` fills the hole instead. */
  lemma LeafUnlinked(c: Ctx, s: Tree, d: Side, h: Links, k: Links)
    requires var u := Plug(c, s); Distinct(u) && Rep(u, null, 0, h) && Nodes(u) == h.Keys
    requires s.Branch? && Kid(s, 1 - d) == Leaf && k.Keys == h.Keys - {s.node}
    requires var x := Kid(s, d); x.Branch? ==>
               x.node in k && x.node in h && k[x.node] == h[x.node].(parent := CtxParent(c), index := CtxSide(c))
    requires Refilled(c, RootNode(Kid(s, d)), h, k)
    requires Agree(h, k, k.Keys - Owner(c) - RootSet(Kid(s, d)))
    ensures var v := Plug(c, Kid(s, d));
            Rep(v, null, 0, k) && Distinct(v) && Nodes(v) == k.Keys &&
            Inorder(v) == Before(c) + Inorder(Kid(s, d)) + After(c)
  {
    var x := Kid(s, d);
    PlugDistinct(c, s);
    PlugDistinct(c, x);
    PlugInorder(c, x);
    assert CtxRep(c, RootNode(x), k) by {
      PlugRep(c, s, h);
      RefilledRep(c, s.node, RootNode(x), h, k);
    }
    assert Rep(x, CtxParent(c), CtxSide(c), k) by {
      PlugRep(c, s, h);
      if x.Branch? {
        RepFrame(x.left, x.node, 0, h, k);
        RepFrame(x.right, x.node, 1, h, k);
      }
    }
    PlugRep(c, x, k);
  }

  /** Where in the order the taken out node was. */
  lemma UnlinkedPosition(c: Ctx, s: Tree, d: Side) returns (p: nat)
    requires s.Branch? && Kid(s, 1 - d) == Leaf
    ensures var items := Inorder(Plug(c, s));
            p < |items| && items[p] == s.node &&
            Before(c) + Inorder(Kid(s, d)) + After(c) == items[..p] + items[p + 1..]
  {
    PlugInorder(c, s);
    p := |Before(c)| + |Inorder(s.left)|;
    var items := Before(c) + (Inorder(s.left) + [s.node] + Inorder(s.right)) + After(c);
    assert items[p] == s.node;
    assert items[..p] == Before(c) + Inorder(s.left);
    assert items[p + 1..] == Inorder(s.right) + After(c);
  }

  // ----- Balance on the way up -----

  /** After an insertion below, `t` is one taller than what it replaces in the hole of `c`. */
  ghost predicate Grown(c: Ctx, t: Tree) {
    Avl(t) && Height(t) >= 1 && CtxAvl(c, Height(t) - 1) && (Height(t) == 1 || t.balance != 0)
  }

  /** After a removal below, `t` is one shorter than what it replaces in the hole of `c`. */
  ghost predicate Shrunk(c: Ctx, t: Tree) {
    Avl(t) && CtxAvl(c, Height(t) + 1)
  }

  /** `t` in the hole of `c` makes a balanced tree. */
  ghost predicate Settled(c: Ctx, t: Tree) {
    Avl(t) && CtxAvl(c, Height(t))
  }

  /**
    After an insertion the subtree `t` is one taller than what it replaces.  At the node
    above it, whose balance becomes `nb`, exactly one of three things is the case.
   */
  lemma GrowStep(up: Ctx, s: Side, n: Node, b: int, sib: Tree, t: Tree)
    requires Grown(Hole(up, s, n, b, sib), t)
    ensures var nb := b + Weight(s); var u, v := Join(s, t, n, nb, sib), Join(s, t, n, b, sib);
            && (nb == 0 ==> Settled(up, u))
            && (b == 0 ==> Grown(up, u))
            && (nb != 0 && b != 0 ==> Rotatable(v, nb) && Settled(up, Rotated(v, nb)))
  {
    var nb, v := b + Weight(s), Join(s, t, n, b, sib);
    JoinAvl(s, t, n, nb, sib);
    if nb != 0 && b != 0 {
      RotatedAvl(v, nb);
    }
  }

  /**
    After a removal the subtree `t` is one shorter than what it replaces.  At the node
    above it, whose balance becomes `nb`, exactly one of three things is the case.
   */
  lemma ShrinkStep(up: Ctx, s: Side, n: Node, b: int, sib: Tree, t: Tree)
    requires Shrunk(Hole(up, s, n, b, sib), t)
    ensures var nb := b - Weight(s); var u, v := Join(s, t, n, nb, sib), Join(s, t, n, b, sib);
            && (b == 0 ==> Settled(up, u))
            && (b != 0 && nb == 0 ==> Shrunk(up, u))
            && (b != 0 && nb != 0 ==>
                  Rotatable(v, nb) &&
                  if Height(Rotated(v, nb)) < Height(v) then Shrunk(up, Rotated(v, nb))
                  else Settled(up, Rotated(v, nb)))
  {
    var nb := b - Weight(s);
    assert Avl(sib) && b == Tilt(s, Height(t) + 1, Height(sib)) && CtxAvl(up, 1 + Max(Height(t) + 1, Height(sib)));
    if b != 0 && nb != 0 {
      ShrinkRotates(up, s, n, b, sib, t);
    } else {
      JoinAvl(s, t, n, nb, sib);
    }
  }

  lemma ShrinkRotates(up: Ctx, s: Side, n: Node, b: int, sib: Tree, t: Tree)
    requires Shrunk(Hole(up, s, n, b, sib), t) && b != 0 && b != Weight(s)
    ensures var nb, v := b - Weight(s), Join(s, t, n, b, sib);
            Rotatable(v, nb) &&
            if Height(Rotated(v, nb)) < Height(v) then Shrunk(up, Rotated(v, nb)) else Settled(up, Rotated(v, nb))
  {
    var nb, v := b - Weight(s), Join(s, t, n, b, sib);
    assert Avl(sib) && b == Tilt(s, Height(t) + 1, Height(sib)) && CtxAvl(up, 1 + Max(Height(t) + 1, Height(sib)));
    JoinAvl(s, t, n, b, sib);
    assert Rotatable(v, nb);
    RotatedAvl(v, nb);
  }

  /** How to take out the node at position `q`, which has at most one child. */
  lemma ShallowPlan(u: Tree, q: nat, h: Links) returns (c: Ctx, s: Tree, d: Side)
    requires Rep(u, null, 0, h) && Distinct(u) && Avl(u) && q < |Inorder(u)| && Inorder(u)[q] in h
    requires var n := Inorder(u)[q]; h[n].child.left == null || h[n].child.right == null
    ensures Plug(c, s) == u && s.Branch? && s.node == Inorder(u)[q] && Kid(s, 1 - d) == Leaf
    ensures Shrunk(c, Kid(s, d))
    ensures Before(c) + Inorder(Kid(s, d)) + After(c) == Inorder(u)[..q] + Inorder(u)[q + 1..]
  {
    c, s, d := ShallowPlace(u, Inorder(u)[q], h);
    var p := UnlinkedPosition(c, s, d);
    DistinctNoDup(u);
    PlugAvl(c, s);
  }

  lemma ShallowPlace(u: Tree, n: Node, h: Links) returns (c: Ctx, s: Tree, d: Side)
    requires Rep(u, null, 0, h) && n in Inorder(u) && n in h
    requires h[n].child.left == null || h[n].child.right == null
    ensures Plug(c, s) == u && s.Branch? && s.node == n && Kid(s, 1 - d) == Leaf
  {
    NodesInorder(u);
    c, s := Locate(Top, u, n);
    PlaceLinks(c, s, h);
    d := if s.left.Branch? then 0 else 1;
  }

  /** The place of a node in the tree and in the order. */
  lemma PlaceOf(t: Tree, n: Node, h: Links) returns (c: Ctx, s: Tree, p: nat)
    requires Rep(t, null, 0, h) && n in Nodes(t)
    ensures Plug(c, s) == t && s.Branch? && s.node == n
    ensures p == |Before(c)| + |Inorder(s.left)| < |Inorder(t)| && Inorder(t)[p] == n && Size(t) >= 1
    ensures |Inorder(s)| == |Inorder(s.left)| + 1 + |Inorder(s.right)|
    ensures n in h && h[n].child == Children(RootNode(s.left), RootNode(s.right))
  {
    c, s := Locate(Top, t, n);
    PlaceLinks(c, s, h);
    PlugInorder(c, s);
    p := |Before(c)| + |Inorder(s.left)|;
    SizeInorder(t);
  }
}
