/**
  What a rotation does to the picture of a subtree, and why that restores balance
  (`avl_rotation`, `lch/util/avl.c`).
 */
module AvlRotation {
  import opened AvlModel

  /** The side that is too tall when the balance has become -2 or 2. */
  function HeavySide(balance: int): Side {
    if balance < 0 then 0 else 1
  }

  /** A subtree `t` whose balance has become `balance` can be rotated. */
  ghost predicate Rotatable(t: Tree, balance: int) {
    (balance == -2 || balance == 2) && t.Branch? &&
    var left := HeavySide(balance);
    Avl(t.left) && Avl(t.right) && Height(Kid(t, left)) == Height(Kid(t, 1 - left)) + 2
  }

  /** The subtree after the rotation. */
  ghost function Rotated(t: Tree, balance: int): Tree
    requires Rotatable(t, balance)
  {
    var left := HeavySide(balance);
    var right := 1 - left;
    var child := Kid(t, left);
    if child.balance != Weight(right) then
      var b := child.balance + Weight(right);
      Join(left, Kid(child, left), child.node, b,
           Join(left, Kid(child, right), t.node, -b, Kid(t, right)))
    else
      var g := Kid(child, right);
      Join(left,
           Join(left, Kid(child, left), child.node,
                if g.balance == Weight(right) then Weight(left) else 0, Kid(g, left)),
           g.node, 0,
           Join(left, Kid(g, right), t.node, if g.balance == Weight(left) then Weight(right) else 0, Kid(t, right)))
  }

  /** A rotation keeps the order of the nodes. */
  lemma RotatedInorder(t: Tree, balance: int)
    requires Rotatable(t, balance)
    ensures Inorder(Rotated(t, balance)) == Inorder(t)
  {
    var left := HeavySide(balance);
    var child := Kid(t, left);
    var a, x, y, d := Inorder(Kid(child, left)), child.node, t.node, Inorder(Kid(t, 1 - left));
    var m := Inorder(Kid(child, 1 - left));
    if child.balance != Weight(1 - left) {
      if left == 0 {
        assert a + [x] + (m + [y] + d) == (a + [x] + m) + [y] + d;
      } else {
        assert (d + [y] + m) + [x] + a == d + [y] + (m + [x] + a);
      }
    } else {
      var g := Kid(child, 1 - left);
      var gl, gr := Inorder(Kid(g, left)), Inorder(Kid(g, 1 - left));
      if left == 0 {
        assert (a + [x] + gl) + [g.node] + (gr + [y] + d) == (a + [x] + (gl + [g.node] + gr)) + [y] + d;
      } else {
        assert (d + [y] + gr) + [g.node] + (gl + [x] + a) == d + [y] + ((gr + [g.node] + gl) + [x] + a);
      }
    }
  }

  /** In the whole tree, a rotation changes only the shape. */
  lemma RotatedWhole(c: Ctx, t: Tree, balance: int)
    requires Rotatable(t, balance)
    ensures var u, v := Plug(c, t), Plug(c, Rotated(t, balance));
            Inorder(v) == Inorder(u) && Nodes(v) == Nodes(u) && (Distinct(u) <==> Distinct(v))
  {
    RotatedInorder(t, balance);
    PlugInorder(c, t);
    PlugInorder(c, Rotated(t, balance));
    SameInorder(Plug(c, t), Plug(c, Rotated(t, balance)));
  }

  /**
    A rotation balances the subtree.  Its height falls by one, unless the child on the
    heavy side was in balance, and then it keeps the height it had.
   */
  lemma RotatedAvl(t: Tree, balance: int)
    requires Rotatable(t, balance)
    ensures Avl(Rotated(t, balance))
    ensures Height(Rotated(t, balance)) ==
            Height(t) - if Kid(t, HeavySide(balance)).balance == 0 then 0 else 1
  {
    var left := HeavySide(balance);
    var right := 1 - left;
    var child := Kid(t, left);
    var far := Kid(t, right);
    assert t == Join(left, child, t.node, t.balance, far);
    assert child == Join(left, Kid(child, left), child.node, child.balance, Kid(child, right));
    if child.balance != Weight(right) {
      OnceAvl(left, Kid(child, left), child.node, child.balance, Kid(child, right), t.node, t.balance, far);
    } else {
      var g := Kid(child, right);
      assert g == Join(left, Kid(g, left), g.node, g.balance, Kid(g, right));
      TwiceAvl(left, Kid(child, left), child.node, Kid(g, left), g.node, g.balance, Kid(g, right),
               t.node, far);
    }
  }

  /** The first case of a rotation: its shape, and when the height falls. */
  lemma OnceShape(t: Tree, balance: int)
    requires Rotatable(t, balance) && Kid(t, HeavySide(balance)).balance != Weight(1 - HeavySide(balance))
    ensures var left := HeavySide(balance);
      var tc, far := Kid(t, left), Kid(t, 1 - left);
      var b := tc.balance + Weight(1 - left);
      && t == Join(left, Join(left, Kid(tc, left), tc.node, tc.balance, Kid(tc, 1 - left)), t.node, t.balance, far)
      && Rotated(t, balance) == Join(left, Kid(tc, left), tc.node, b, Join(left, Kid(tc, 1 - left), t.node, -b, far))
      && (b == 0 <==> Height(Rotated(t, balance)) < Height(t))
  {
    RotatedAvl(t, balance);
  }

  lemma OnceAvl(left: Side, a: Tree, child: Node, cb: int, m: Tree, node: Node, nb: int, far: Tree)
    requires Avl(Join(left, a, child, cb, m)) && cb != -Weight(left) && Avl(far)
    requires Height(Join(left, a, child, cb, m)) == Height(far) + 2
    ensures var u := Join(left, a, child, cb - Weight(left), Join(left, m, node, -(cb - Weight(left)), far));
            Avl(u) && Height(u) == Height(far) + if cb == 0 then 3 else 2
  {
    JoinAvl(left, a, child, cb, m);
    JoinAvl(left, m, node, Weight(left) - cb, far);
    JoinAvl(left, a, child, cb - Weight(left), Join(left, m, node, Weight(left) - cb, far));
  }

  lemma TwiceAvl(left: Side, a: Tree, child: Node, gl: Tree, gchild: Node, gb: int, gr: Tree,
                 node: Node, far: Tree)
    requires Avl(Join(left, a, child, -Weight(left), Join(left, gl, gchild, gb, gr))) && Avl(far)
    requires Height(Join(left, a, child, -Weight(left), Join(left, gl, gchild, gb, gr))) == Height(far) + 2
    ensures var u := Join(left,
                          Join(left, a, child, if gb == -Weight(left) then Weight(left) else 0, gl), gchild, 0,
                          Join(left, gr, node, if gb == Weight(left) then -Weight(left) else 0, far));
            Avl(u) && Height(u) == Height(far) + 2
  {
    var cb := if gb == -Weight(left) then Weight(left) else 0;
    var nb := if gb == Weight(left) then -Weight(left) else 0;
    JoinAvl(left, a, child, -Weight(left), Join(left, gl, gchild, gb, gr));
    JoinAvl(left, gl, gchild, gb, gr);
    JoinAvl(left, a, child, cb, gl);
    JoinAvl(left, gr, node, nb, far);
    JoinAvl(left, Join(left, a, child, cb, gl), gchild, 0, Join(left, gr, node, nb, far));
  }

  // ----- The links after a rotation -----

  ghost function RootSet(t: Tree): set<Node> {
    if t.Leaf? then {} else {t.node}
  }

  /** The node that points at the hole of `c`, if there is one. */
  ghost function Owner(c: Ctx): set<Node> {
    if c.Top? then {} else {c.node}
  }

  /** `x` has moved below `p` at index `i`. */
  ghost predicate Moved(x: Tree, p: Node, i: Side, h: Links, k: Links) {
    x.Branch? ==> x.node in h && x.node in k && k[x.node] == h[x.node].(parent := p, index := i)
  }

  /** The hole of `c` now holds `x`. */
  ghost predicate Refilled(c: Ctx, x: Node?, h: Links, k: Links) {
    c.Hole? ==> c.node in h && c.node in k &&
                k[c.node] == h[c.node].(child := h[c.node].child.With(c.side, x))
  }

  lemma MovedRep(x: Tree, p: Node, i: Side, p0: Node, i0: Side, h: Links, k: Links)
    requires Distinct(x) && Rep(x, p0, i0, h) && Moved(x, p, i, h, k)
    requires Agree(h, k, Nodes(x) - RootSet(x))
    ensures Rep(x, p, i, k)
  {
    if x.Branch? {
      RepFrame(x.left, x.node, 0, h, k);
      RepFrame(x.right, x.node, 1, h, k);
    }
  }

  lemma RefilledRep(c: Ctx, x0: Node?, x: Node?, h: Links, k: Links)
    requires CtxDistinct(c) && CtxRep(c, x0, h) && Refilled(c, x, h, k)
    requires Agree(h, k, CtxNodes(c) - Owner(c))
    ensures CtxRep(c, x, k)
  {
    if c.Hole? {
      RepFrame(c.sibling, c.node, 1 - c.side, h, k);
      CtxFrame(c.up, c.node, h, k);
    }
  }

  /** How the first case changes the links of `node`, `child` and the subtree `m` between them. */
  ghost predicate OnceStep(left: Side, node: Node, child: Node, m: Tree, c: Ctx, b: int, h: Links, k: Links) {
    node in h && child in h && node in k && child in k &&
    k[node] == Link(h[node].child.With(left, RootNode(m)), child, 1 - left, -b) &&
    k[child] == Link(h[child].child.With(1 - left, node), h[node].parent, h[node].index, b) &&
    Moved(m, node, left, h, k) && Refilled(c, child, h, k) &&
    Agree(h, k, h.Keys - {node, child} - RootSet(m) - Owner(c))
  }

  /** What the first case finds. */
  ghost predicate OnceReady(left: Side, a: Tree, child: Node, m: Tree, node: Node, far: Tree, c: Ctx, h: Links) {
    OnceLinked(left, a, child, m, node, far, c, h) && OnceApart(a, child, m, node, far, c, h.Keys)
  }

  ghost predicate OnceLinked(left: Side, a: Tree, child: Node, m: Tree, node: Node, far: Tree, c: Ctx, h: Links) {
    Rep(a, child, left, h) && Rep(m, child, 1 - left, h) && Rep(far, node, 1 - left, h) && CtxRep(c, node, h) &&
    node in h && h[node].child == Pair(left, child, RootNode(far)) &&
    h[node].parent == CtxParent(c) && h[node].index == CtxSide(c) &&
    child in h && h[child].child == Pair(left, RootNode(a), RootNode(m))
  }

  ghost predicate OnceApart(a: Tree, child: Node, m: Tree, node: Node, far: Tree, c: Ctx, S: set<Node>) {
    CtxDistinct(c) && Distinct(m) &&
    node != child && Nodes(a) + Nodes(m) + Nodes(far) + CtxNodes(c) <= S - {node, child} &&
    Nodes(m) !! Nodes(a) + Nodes(far) + CtxNodes(c) && CtxNodes(c) !! Nodes(a) + Nodes(far)
  }

  lemma LinkedParts(left: Side, a: Tree, child: Node, cb: int, m: Tree, node: Node, nb: int, far: Tree, c: Ctx,
                    h: Links)
    requires Rep(Plug(c, Join(left, Join(left, a, child, cb, m), node, nb, far)), null, 0, h)
    ensures OnceLinked(left, a, child, m, node, far, c, h)
    ensures h[child].parent == node && h[child].index == left && h[child].balance == cb
  {
    var tc := Join(left, a, child, cb, m);
    PlugRep(c, Join(left, tc, node, nb, far), h);
    RepJoin(left, tc, node, nb, far, CtxParent(c), CtxSide(c), h);
    RepJoin(left, a, child, cb, m, node, left, h);
  }

  lemma ApartParts(left: Side, a: Tree, child: Node, cb: int, m: Tree, node: Node, nb: int, far: Tree, c: Ctx)
    requires Distinct(Plug(c, Join(left, Join(left, a, child, cb, m), node, nb, far)))
    ensures OnceApart(a, child, m, node, far, c, Nodes(Plug(c, Join(left, Join(left, a, child, cb, m), node, nb, far))))
  {
    var tc := Join(left, a, child, cb, m);
    PlugDistinct(c, Join(left, tc, node, nb, far));
    DistinctJoin(left, tc, node, nb, far);
    DistinctJoin(left, a, child, cb, m);
  }

  lemma DistinctJoin(d: Side, near: Tree, n: Node, b: int, far: Tree)
    ensures Nodes(Join(d, near, n, b, far)) == Nodes(near) + {n} + Nodes(far)
    ensures Distinct(Join(d, near, n, b, far)) <==>
            Distinct(near) && Distinct(far) && n !in Nodes(near) && n !in Nodes(far) && Nodes(near) !! Nodes(far)
  {}

  lemma OnceAfter(left: Side, a: Tree, child: Node, m: Tree, node: Node, far: Tree, c: Ctx, b: int, h: Links, k: Links)
    requires OnceReady(left, a, child, m, node, far, c, h)
    requires OnceStep(left, node, child, m, c, b, h, k)
    ensures Rep(Plug(c, Join(left, a, child, b, Join(left, m, node, -b, far))), null, 0, k)
  {
    assert Rep(a, child, left, k) by { RepFrame(a, child, left, h, k); }
    assert Rep(far, node, 1 - left, k) by { RepFrame(far, node, 1 - left, h, k); }
    assert Rep(m, node, left, k) by { MovedRep(m, node, left, child, 1 - left, h, k); }
    assert CtxRep(c, child, k) by { RefilledRep(c, node, child, h, k); }
    OnceBuilt(left, a, child, b, m, node, far, c, k);
  }

  /** Linked parts and the two links between them make a linked tree. */
  lemma OnceBuilt(left: Side, a: Tree, child: Node, b: int, m: Tree, node: Node, far: Tree, c: Ctx, k: Links)
    requires Rep(a, child, left, k) && Rep(far, node, 1 - left, k) && Rep(m, node, left, k) && CtxRep(c, child, k)
    requires node in k && k[node] == Link(Pair(left, RootNode(m), RootNode(far)), child, 1 - left, -b)
    requires child in k && k[child] == Link(Pair(left, RootNode(a), node), CtxParent(c), CtxSide(c), b)
    ensures Rep(Plug(c, Join(left, a, child, b, Join(left, m, node, -b, far))), null, 0, k)
  {
    RepJoin(left, m, node, -b, far, child, 1 - left, k);
    RepJoin(left, a, child, b, Join(left, m, node, -b, far), CtxParent(c), CtxSide(c), k);
    PlugRep(c, Join(left, a, child, b, Join(left, m, node, -b, far)), k);
  }

  /** The first case turns one linked tree into the other. */
  lemma OnceRotates(left: Side, a: Tree, child: Node, cb: int, m: Tree, node: Node, nb: int, far: Tree, c: Ctx,
                    b: int, h: Links, k: Links)
    requires var t := Plug(c, Join(left, Join(left, a, child, cb, m), node, nb, far));
             Distinct(t) && Rep(t, null, 0, h) && Nodes(t) == h.Keys
    requires OnceStep(left, node, child, m, c, b, h, k)
    ensures Rep(Plug(c, Join(left, a, child, b, Join(left, m, node, -b, far))), null, 0, k)
  {
    LinkedParts(left, a, child, cb, m, node, nb, far, c, h);
    ApartParts(left, a, child, cb, m, node, nb, far, c);
    OnceAfter(left, a, child, m, node, far, c, b, h, k);
  }

  /** The links that the first case reads and the nodes it writes. */
  lemma OnceNames(left: Side, a: Tree, child: Node, cb: int, m: Tree, node: Node, nb: int, far: Tree, c: Ctx, h: Links)
    requires var t := Plug(c, Join(left, Join(left, a, child, cb, m), node, nb, far));
             Distinct(t) && Rep(t, null, 0, h) && Nodes(t) == h.Keys
    ensures node in h && child in h && node != child
    ensures h[child].child.At(1 - left) == RootNode(m) && h[node].parent == CtxParent(c) && h[node].index == CtxSide(c)
    ensures RootSet(m) <= h.Keys - {node, child} && Owner(c) <= h.Keys - {node, child} - RootSet(m)
  {
    LinkedParts(left, a, child, cb, m, node, nb, far, c, h);
    ApartParts(left, a, child, cb, m, node, nb, far, c);
  }

  /** How the second case changes the links of `node`, `child`, `gchild` and the subtrees of `gchild`. */
  ghost predicate TwiceStep(left: Side, node: Node, child: Node, gchild: Node, gl: Tree, gr: Tree, c: Ctx,
                            cb: int, nb: int, h: Links, k: Links)
  {
    node in h && child in h && gchild in h && node in k && child in k && gchild in k &&
    k[node] == Link(h[node].child.With(left, RootNode(gr)), gchild, 1 - left, nb) &&
    k[child] == Link(h[child].child.With(1 - left, RootNode(gl)), gchild, left, cb) &&
    k[gchild] == Link(Pair(left, child, node), h[node].parent, h[node].index, 0) &&
    Moved(gl, child, 1 - left, h, k) && Moved(gr, node, left, h, k) && Refilled(c, gchild, h, k) &&
    Agree(h, k, h.Keys - {node, child, gchild} - RootSet(gl) - RootSet(gr) - Owner(c))
  }

  /** First half of the second case: the subtrees of `gchild` go to `child` and `node`. */
  ghost predicate HandStep(left: Side, node: Node, child: Node, gl: Tree, gr: Tree, h: Links, k: Links) {
    node in h && child in h && node in k && child in k &&
    k[node] == h[node].(child := h[node].child.With(left, RootNode(gr))) &&
    k[child] == h[child].(child := h[child].child.With(1 - left, RootNode(gl))) &&
    Moved(gl, child, 1 - left, h, k) && Moved(gr, node, left, h, k) &&
    Agree(h, k, h.Keys - {node, child} - RootSet(gl) - RootSet(gr))
  }

  /** Second half: `gchild` takes the place of `node`, above `child` and `node`. */
  ghost predicate UpStep(left: Side, node: Node, child: Node, gchild: Node, c: Ctx, cb: int, nb: int, h: Links,
                         k: Links) {
    node in h && child in h && gchild in h && node in k && child in k && gchild in k &&
    k[node] == h[node].(parent := gchild, index := 1 - left, balance := nb) &&
    k[child] == h[child].(parent := gchild, index := left, balance := cb) &&
    k[gchild] == Link(Pair(left, child, node), h[node].parent, h[node].index, 0) &&
    Refilled(c, gchild, h, k) && Agree(h, k, h.Keys - {node, child, gchild} - Owner(c))
  }

  lemma HalvesTwice(left: Side, node: Node, child: Node, gchild: Node, gl: Tree, gr: Tree, c: Ctx,
                    cb: int, nb: int, h: Links, g: Links, k: Links)
    requires h.Keys == g.Keys == k.Keys && node != child && gchild !in {node, child}
    requires RootSet(gl) <= h.Keys - {node, child, gchild}
    requires RootSet(gr) <= h.Keys - {node, child, gchild} - RootSet(gl)
    requires Owner(c) <= h.Keys - {node, child, gchild} - RootSet(gl) - RootSet(gr)
    requires HandStep(left, node, child, gl, gr, h, g) && UpStep(left, node, child, gchild, c, cb, nb, g, k)
    ensures TwiceStep(left, node, child, gchild, gl, gr, c, cb, nb, h, k)
  {}

  function Pair(d: Side, near: Node?, far: Node?): Children {
    if d == 0 then Children(near, far) else Children(far, near)
  }

  /** What the second case finds. */
  ghost predicate TwiceReady(left: Side, a: Tree, child: Node, gl: Tree, gchild: Node, gr: Tree, node: Node, far: Tree,
                             c: Ctx, h: Links)
  {
    TwiceLinked(left, a, child, gl, gchild, gr, node, far, c, h) &&
    TwiceApart(a, child, gl, gchild, gr, node, far, c, h.Keys)
  }

  ghost predicate TwiceLinked(left: Side, a: Tree, child: Node, gl: Tree, gchild: Node, gr: Tree, node: Node, far: Tree,
                              c: Ctx, h: Links)
  {
    Rep(a, child, left, h) && Rep(far, node, 1 - left, h) && CtxRep(c, node, h) &&
    Rep(gl, gchild, left, h) && Rep(gr, gchild, 1 - left, h) &&
    node in h && h[node].child == Pair(left, child, RootNode(far)) &&
    h[node].parent == CtxParent(c) && h[node].index == CtxSide(c) &&
    child in h && h[child].child == Pair(left, RootNode(a), gchild) &&
    gchild in h && h[gchild].child == Pair(left, RootNode(gl), RootNode(gr))
  }

  ghost predicate TwiceApart(a: Tree, child: Node, gl: Tree, gchild: Node, gr: Tree, node: Node, far: Tree, c: Ctx,
                             S: set<Node>)
  {
    CtxDistinct(c) && Distinct(gl) && Distinct(gr) && node != child && gchild !in {node, child} &&
    Nodes(a) + Nodes(gl) + Nodes(gr) + Nodes(far) + CtxNodes(c) <= S - {node, child, gchild} &&
    Nodes(gl) !! Nodes(a) + Nodes(gr) + Nodes(far) + CtxNodes(c) &&
    Nodes(gr) !! Nodes(a) + Nodes(far) + CtxNodes(c) &&
    CtxNodes(c) !! Nodes(a) + Nodes(far)
  }

  lemma LinkedGrandparts(left: Side, a: Tree, child: Node, cb: int, gl: Tree, gchild: Node, gb: int, gr: Tree,
                         node: Node, nb: int, far: Tree, c: Ctx, h: Links)
    requires Rep(Plug(c, Join(left, Join(left, a, child, cb, Join(left, gl, gchild, gb, gr)), node, nb, far)),
                 null, 0, h)
    ensures TwiceLinked(left, a, child, gl, gchild, gr, node, far, c, h)
    ensures h[gchild].balance == gb
  {
    var tg := Join(left, gl, gchild, gb, gr);
    LinkedParts(left, a, child, cb, tg, node, nb, far, c, h);
    RepJoin(left, gl, gchild, gb, gr, child, 1 - left, h);
  }

  lemma ApartGrandparts(left: Side, a: Tree, child: Node, cb: int, gl: Tree, gchild: Node, gb: int, gr: Tree,
                        node: Node, nb: int, far: Tree, c: Ctx)
    requires Distinct(Plug(c, Join(left, Join(left, a, child, cb, Join(left, gl, gchild, gb, gr)), node, nb, far)))
    ensures TwiceApart(a, child, gl, gchild, gr, node, far, c,
                       Nodes(Plug(c, Join(left, Join(left, a, child, cb, Join(left, gl, gchild, gb, gr)), node, nb,
                             far))))
  {
    var tg := Join(left, gl, gchild, gb, gr);
    ApartParts(left, a, child, cb, tg, node, nb, far, c);
    DistinctJoin(left, gl, gchild, gb, gr);
  }

  lemma TwiceAfter(left: Side, a: Tree, child: Node, gl: Tree, gchild: Node, gr: Tree, node: Node, far: Tree, c: Ctx,
                   cb: int, nb: int, h: Links, k: Links)
    requires TwiceReady(left, a, child, gl, gchild, gr, node, far, c, h)
    requires TwiceStep(left, node, child, gchild, gl, gr, c, cb, nb, h, k)
    ensures Rep(Plug(c, Join(left, Join(left, a, child, cb, gl), gchild, 0, Join(left, gr, node, nb, far))), null, 0, k)
  {
    assert Rep(a, child, left, k) by { RepFrame(a, child, left, h, k); }
    assert Rep(far, node, 1 - left, k) by { RepFrame(far, node, 1 - left, h, k); }
    assert Rep(gl, child, 1 - left, k) by { MovedRep(gl, child, 1 - left, gchild, left, h, k); }
    assert Rep(gr, node, left, k) by { MovedRep(gr, node, left, gchild, 1 - left, h, k); }
    assert CtxRep(c, gchild, k) by { RefilledRep(c, node, gchild, h, k); }
    TwiceBuilt(left, a, child, cb, gl, gchild, gr, node, nb, far, c, k);
  }

  lemma TwiceBuilt(left: Side, a: Tree, child: Node, cb: int, gl: Tree, gchild: Node, gr: Tree, node: Node, nb: int,
                   far: Tree, c: Ctx, k: Links)
    requires Rep(a, child, left, k) && Rep(far, node, 1 - left, k) && CtxRep(c, gchild, k)
    requires Rep(gl, child, 1 - left, k) && Rep(gr, node, left, k)
    requires node in k && k[node] == Link(Pair(left, RootNode(gr), RootNode(far)), gchild, 1 - left, nb)
    requires child in k && k[child] == Link(Pair(left, RootNode(a), RootNode(gl)), gchild, left, cb)
    requires gchild in k && k[gchild] == Link(Pair(left, child, node), CtxParent(c), CtxSide(c), 0)
    ensures Rep(Plug(c, Join(left, Join(left, a, child, cb, gl), gchild, 0, Join(left, gr, node, nb, far))), null, 0, k)
  {
    RepJoin(left, a, child, cb, gl, gchild, left, k);
    RepJoin(left, gr, node, nb, far, gchild, 1 - left, k);
    var u := Join(left, Join(left, a, child, cb, gl), gchild, 0, Join(left, gr, node, nb, far));
    RepJoin(left, Join(left, a, child, cb, gl), gchild, 0, Join(left, gr, node, nb, far), CtxParent(c), CtxSide(c), k);
    PlugRep(c, u, k);
  }

  /** The second case turns one linked tree into the other. */
  lemma TwiceRotates(left: Side, a: Tree, child: Node, cb0: int, gl: Tree, gchild: Node, gb: int, gr: Tree,
                     node: Node, nb0: int, far: Tree, c: Ctx, cb: int, nb: int, h: Links, k: Links)
    requires var t := Plug(c, Join(left, Join(left, a, child, cb0, Join(left, gl, gchild, gb, gr)), node, nb0, far));
             Distinct(t) && Rep(t, null, 0, h) && Nodes(t) == h.Keys
    requires TwiceStep(left, node, child, gchild, gl, gr, c, cb, nb, h, k)
    ensures Rep(Plug(c, Join(left, Join(left, a, child, cb, gl), gchild, 0, Join(left, gr, node, nb, far))), null, 0, k)
  {
    LinkedGrandparts(left, a, child, cb0, gl, gchild, gb, gr, node, nb0, far, c, h);
    ApartGrandparts(left, a, child, cb0, gl, gchild, gb, gr, node, nb0, far, c);
    TwiceAfter(left, a, child, gl, gchild, gr, node, far, c, cb, nb, h, k);
  }

  /** The links that the second case reads and the nodes it writes. */
  lemma TwiceNames(left: Side, a: Tree, child: Node, cb: int, gl: Tree, gchild: Node, gb: int, gr: Tree,
                   node: Node, nb: int, far: Tree, c: Ctx, h: Links)
    requires var t := Plug(c, Join(left, Join(left, a, child, cb, Join(left, gl, gchild, gb, gr)), node, nb, far));
             Distinct(t) && Rep(t, null, 0, h) && Nodes(t) == h.Keys
    ensures node in h && child in h && gchild in h && node != child && gchild !in {node, child}
    ensures h[node].parent == CtxParent(c) && h[node].index == CtxSide(c)
    ensures h[gchild].child == Pair(left, RootNode(gl), RootNode(gr)) && h[gchild].balance == gb
    ensures RootSet(gl) <= h.Keys - {node, child, gchild}
    ensures RootSet(gr) <= h.Keys - {node, child, gchild} - RootSet(gl)
    ensures Owner(c) <= h.Keys - {node, child, gchild} - RootSet(gl) - RootSet(gr)
  {
    LinkedGrandparts(left, a, child, cb, gl, gchild, gb, gr, node, nb, far, c, h);
    ApartGrandparts(left, a, child, cb, gl, gchild, gb, gr, node, nb, far, c);
  }
}
