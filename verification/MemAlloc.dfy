/**
  The object pool of `lch/util/MemAlloc_T.h`, in the mode of block lists: nodes carry objects, and move between a
  list of idle nodes and a list of nodes whose objects are handed out.  An object that comes back is bound to
  whichever node heads the second list, not to the one that it left with.
 */
module MemAlloc {
  /** An object of the pool; only its identity matters. */
  class Val {
    constructor () {}
  }

  class Node {
    var next: Node?
    var val: Val?

    constructor (next: Node?, val: Val?)
      ensures this.next == next && this.val == val
    {
      this.next, this.val := next, val;
    }
  }

  function Head(nodes: seq<Node>): Node? {
    if nodes == [] then null else nodes[0]
  }

  /** The list from `head` goes through exactly these nodes. */
  ghost predicate Linked(head: Node?, nodes: seq<Node>)
    reads nodes
  {
    Chained(head, nodes, Nexts(nodes))
  }

  ghost predicate Chained(head: Node?, nodes: seq<Node>, nexts: seq<Node?>) {
    && head == Head(nodes) && |nexts| == |nodes|
    && forall k :: 0 <= k < |nodes| ==> nexts[k] == Head(nodes[k + 1..])
  }

  ghost function Nexts(nodes: seq<Node>): seq<Node?>
    reads nodes
  {
    seq(|nodes|, k requires 0 <= k < |nodes| reads nodes => nodes[k].next)
  }

  ghost predicate Distinct<T>(s: seq<T>) {
    forall j, k :: 0 <= j < k < |s| ==> s[j] != s[k]
  }

  ghost function Vals(nodes: seq<Node>): seq<Val?>
    reads nodes
  {
    seq(|nodes|, k requires 0 <= k < |nodes| reads nodes => nodes[k].val)
  }

  lemma LinkedCons(node: Node, head: Node?, nodes: seq<Node>)
    requires Linked(head, nodes) && node.next == head
    ensures Linked(node, [node] + nodes)
  {
    assert Nexts([node] + nodes) == [node.next] + Nexts(nodes);
    ChainedCons(node, head, nodes, Nexts(nodes));
  }

  lemma ChainedCons(node: Node, head: Node?, nodes: seq<Node>, nexts: seq<Node?>)
    requires Chained(head, nodes, nexts)
    ensures Chained(node, [node] + nodes, [head] + nexts)
  {
    var all, links := [node] + nodes, [head] + nexts;
    forall k | 0 <= k < |all|
      ensures links[k] == Head(all[k + 1..])
    {
      if k == 0 {
        assert all[1..] == nodes;
      } else {
        assert all[k + 1..] == nodes[k..];
        assert links[k] == nexts[k - 1];
      }
    }
  }

  lemma LinkedTail(head: Node?, nodes: seq<Node>)
    requires Linked(head, nodes) && nodes != []
    ensures Linked(nodes[0].next, nodes[1..])
  {
    assert Nexts(nodes)[0] == nodes[0].next && Nexts(nodes[1..]) == Nexts(nodes)[1..];
    ChainedTail(head, nodes, Nexts(nodes));
  }

  lemma ChainedTail(head: Node?, nodes: seq<Node>, nexts: seq<Node?>)
    requires Chained(head, nodes, nexts) && nodes != []
    ensures Chained(nexts[0], nodes[1..], nexts[1..])
  {
    forall k | 0 <= k < |nodes| - 1
      ensures nexts[1..][k] == Head(nodes[1..][k + 1..])
    {
      assert nodes[1..][k + 1..] == nodes[k + 2..];
      assert nexts[1..][k] == nexts[k + 1];
    }
  }

  /** No node is in a list twice, or in both. */
  ghost predicate Different(idle: seq<Node>, alloc: seq<Node>) {
    Distinct(idle) && Distinct(alloc) && forall node :: node in idle ==> node !in alloc
  }

  lemma DistinctTail<T>(s: seq<T>)
    requires Distinct(s) && s != []
    ensures Distinct(s[1..]) && s[0] !in s[1..]
  {}

  lemma DistinctCons<T>(x: T, s: seq<T>)
    requires Distinct(s) && x !in s
    ensures Distinct([x] + s)
  {}

  /** No object is idle twice, or idle and handed out. */
  ghost predicate Apart(vals: seq<Val?>, out: set<Val?>) {
    Distinct(vals) && null !in vals && null !in out && forall v :: v in vals ==> v !in out
  }

  lemma ApartCons(v: Val, vals: seq<Val?>, out: set<Val?>)
    requires Apart(vals, out) && v !in vals && v !in out
    ensures Apart([v] + vals, out)
  {
    DistinctCons<Val?>(v, vals);
  }

  lemma ValsCons(node: Node, nodes: seq<Node>)
    ensures Vals([node] + nodes) == [node.val] + Vals(nodes)
  {}

  /** A node at the head of the idle ones, with an object that is neither idle nor handed out. */
  lemma Pushed(node: Node, head: Node?, idle: seq<Node>, alloc: seq<Node>, out: set<Val?>)
    requires Linked(head, idle) && Different(idle, alloc) && Apart(Vals(idle), out)
    requires node.next == head && node !in idle && node !in alloc
    requires node.val != null && node.val !in Vals(idle) && node.val !in out
    ensures Linked(node, [node] + idle) && Different([node] + idle, alloc)
    ensures Vals([node] + idle) == [node.val] + Vals(idle) && Apart(Vals([node] + idle), out)
  {
    LinkedCons(node, head, idle);
    DistinctCons(node, idle);
    ApartCons(node.val, Vals(idle), out);
    ValsCons(node, idle);
  }

  /** The first idle node goes over to the other list. */
  lemma Moved(node: Node, head: Node?, idle: seq<Node>, allocHead: Node?, alloc: seq<Node>, out: set<Val?>)
    requires Linked(head, idle) && Linked(allocHead, alloc) && Different(idle, alloc) && Apart(Vals(idle), out)
    requires idle != [] && node == idle[0]
    ensures Linked(node.next, idle[1..]) && node !in idle[1..] && node !in alloc
    ensures Different(idle[1..], [node] + alloc)
    ensures node.val != null && node.val !in out && Vals(idle[1..]) == Vals(idle)[1..]
    ensures Apart(Vals(idle[1..]), out + {node.val})
  {
    LinkedTail(head, idle);
    DistinctTail(idle);
    DistinctCons(node, alloc);
    DistinctTail(Vals(idle));
    assert Vals(idle[1..]) == Vals(idle)[1..];
    assert Vals(idle)[0] == node.val && Vals(idle)[0] in Vals(idle);
  }

  class Pool {
    const perSize: int
    const baseSize: int
    var nodeSum: int
    var nodeUsing: int
    var allocHead: Node?
    var idleHead: Node?

    ghost var idle: seq<Node>
    ghost var alloc: seq<Node>

    /** The objects handed out and not yet given back. */
    ghost var out: set<Val?>

    ghost predicate Nodes()
      reads this, idle, alloc
    {
      && Linked(idleHead, idle) && Linked(allocHead, alloc) && Different(idle, alloc)
      && nodeUsing == |alloc| && nodeSum == |idle| + |alloc|
    }

    ghost predicate Valid()
      reads this, idle, alloc
    {
      Nodes() && Apart(Vals(idle), out) && |out| == |alloc|
    }

    constructor (perSize: int, baseSize: int)
      ensures Valid() && this.perSize == perSize && this.baseSize == baseSize
      ensures nodeUsing == 0 && nodeSum == (if baseSize > 0 then baseSize else 0) && out == {}
      ensures forall node :: node in idle ==> fresh(node) && fresh(node.val)
    {
      this.perSize, this.baseSize := perSize, baseSize;
      nodeSum, nodeUsing := 0, 0;
      allocHead, idleHead := null, null;
      idle, alloc, out := [], [], {};
      new;
      var n := IncreaseMem(baseSize);
    }

    /** `IncreaseMem`: new nodes with new objects at the head of the idle list. */
    method IncreaseMem(count: int) returns (n: int)
      requires Valid()
      modifies this`nodeSum, this`idleHead, this`idle
      ensures Valid() && n == if count > 0 then count else 0
      ensures |idle| == |old(idle)| + n && idle[n..] == old(idle)
      ensures nodeSum == old(nodeSum) + n
      ensures forall k :: 0 <= k < n ==> fresh(idle[k]) && fresh(idle[k].val)
      ensures Vals(idle)[n..] == old(Vals(idle))
    {
      n := 0;
      while n < count
        invariant 0 <= n && (n <= count || n == 0) && Valid()
        invariant |idle| == |old(idle)| + n && idle[n..] == old(idle) && nodeSum == old(nodeSum) + n
        invariant forall k :: 0 <= k < n ==> fresh(idle[k]) && fresh(idle[k].val)
        invariant Vals(idle)[n..] == old(Vals(idle))
      {
        AddNode();
        n := n + 1;
      }
    }

    method AddNode()
      requires Valid()
      modifies this`nodeSum, this`idleHead, this`idle
      ensures Valid() && nodeSum == old(nodeSum) + 1
      ensures |idle| > 0 && idle == [idle[0]] + old(idle) && fresh(idle[0]) && fresh(idle[0].val)
      ensures Vals(idle) == [idle[0].val] + old(Vals(idle))
    {
      ghost var nexts, vals, others := Nexts(idle), Vals(idle), Nexts(alloc);
      var val := new Val();
      var node := new Node(idleHead, val);
      assert Nexts(idle) == nexts && Vals(idle) == vals && Nexts(alloc) == others;
      PushNew(node);
    }

    method PushNew(node: Node)
      requires Valid() && node.next == idleHead && node !in idle && node !in alloc
      requires node.val != null && node.val !in Vals(idle) && node.val !in out
      modifies this`nodeSum, this`idleHead, this`idle
      ensures Valid() && nodeSum == old(nodeSum) + 1 && idle == [node] + old(idle)
      ensures Vals(idle) == [node.val] + old(Vals(idle))
    {
      Pushed(node, idleHead, idle, alloc, out);
      ghost var pushed, others := [node] + idle, alloc;
      ghost var nexts, vals, otherNexts := Nexts(pushed), Vals(pushed), Nexts(others);
      nodeSum := nodeSum + 1;
      idleHead := node;
      idle := [node] + idle;
      assert Nexts(pushed) == nexts && Vals(pushed) == vals && Nexts(others) == otherNexts;
    }

    /** `fAlloc`: an object that is not handed out, from the head of the idle list; null only if none can be made. */
    method Alloc() returns (v: Val?)
      requires Valid()
      modifies this, idle
      ensures Valid() && (v == null <==> old(idle) == [] && perSize <= 0)
      ensures v == null ==> out == old(out) && idle == old(idle) && alloc == old(alloc)
      ensures v != null ==> v !in old(out) && out == old(out) + {v}
      ensures old(idle) != [] ==> v == old(idle[0].val) && Vals(idle) == old(Vals(idle))[1..] && nodeSum == old(nodeSum)
      ensures old(idle) == [] ==> nodeSum == old(nodeSum) + (if perSize > 0 then perSize else 0)
    {
      if idleHead == null {
        var n := IncreaseMem(perSize);
        if n <= 0 {
          return null;
        }
      }
      v := TakeIdle();
    }

    method TakeIdle() returns (v: Val)
      requires Valid() && idle != []
      modifies this, idle
      ensures Valid() && v !in old(out) && out == old(out) + {v} && v == old(idle[0].val)
      ensures idle == old(idle)[1..] && alloc == [old(idle[0])] + old(alloc)
      ensures Vals(idle) == old(Vals(idle))[1..]
    {
      var node := idleHead;
      Moved(node, idleHead, idle, allocHead, alloc, out);
      v := node.val;
      ghost var left, others := idle[1..], alloc;
      ghost var nexts, vals, otherNexts := Nexts(left), Vals(left), Nexts(others);
      idleHead := node.next;
      node.next := allocHead;
      allocHead := node;
      nodeUsing := nodeUsing + 1;
      idle := idle[1..];
      alloc := [node] + alloc;
      out := out + {v};
      assert Nexts(left) == nexts && Vals(left) == vals && Nexts(others) == otherNexts;
      LinkedCons(node, node.next, others);
    }

    /** `fFree`: the pool stays valid exactly when the object is handed out. */
    method Free(v: Val?)
      requires Valid()
      modifies this, alloc
      ensures v == null || old(alloc) == [] ==> idle == old(idle) && alloc == old(alloc) && out == old(out) && Valid()
      ensures v != null && old(alloc) != [] ==>
        && Nodes() && out == old(out) - {v}
        && idle == [old(alloc[0])] + old(idle) && alloc == old(alloc)[1..]
        && Vals(idle) == [v] + old(Vals(idle))
        && (Valid() <==> v in old(out))
    {
      if v == null || allocHead == null {
        return;
      }
      GiveBack(v);
    }

    method GiveBack(v: Val)
      requires Valid() && alloc != []
      modifies this, alloc
      ensures Nodes() && out == old(out) - {v}
      ensures idle == [old(alloc[0])] + old(idle) && alloc == old(alloc)[1..]
      ensures Vals(idle) == [v] + old(Vals(idle))
      ensures Valid() <==> v in old(out)
    {
      var temp := allocHead;
      LinkedTail(allocHead, alloc);
      DistinctTail(alloc);
      DistinctCons(temp, idle);
      ghost var rest, left := idle, alloc[1..];
      ghost var nexts, vals, leftNexts := Nexts(rest), Vals(rest), Nexts(left);
      allocHead := temp.next;
      temp.val := v;
      temp.next := idleHead;
      idleHead := temp;
      nodeUsing := nodeUsing - 1;
      idle := [temp] + idle;
      alloc := alloc[1..];
      out := out - {v};
      assert Nexts(rest) == nexts && Vals(rest) == vals && Nexts(left) == leftNexts;
      LinkedCons(temp, temp.next, rest);
      ValsCons(temp, rest);
      if v in old(out) {
        ApartCons(v, Vals(rest), out);
      }
    }
  }
}
