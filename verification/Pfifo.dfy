/**
  The operations of `lch/util/pfifo.c`, each run to its end: a ring of blocks that are written and read
  in place.
 */
module Pfifo {
  import opened Ring

  /** A block of memory: its size never changes, its content does. */
  class Block {
    const capacity: nat
    var content: seq<int>

    constructor (capacity: nat)
      ensures this.capacity == capacity && content == []
    {
      this.capacity := capacity;
      content := [];
    }
  }

  class Queue {
    const size: nat
    const avpsize: nat
    const elements: array<Block>
    var r: nat
    var w: nat
    /** The blocks allocated for this queue and not yet freed. */
    ghost var live: set<Block>

    ghost predicate Valid()
      reads this, elements
    {
      && size > 1 && elements.Length == size && r < size && w < size
      && (forall i, j :: 0 <= i < j < size ==> elements[i] != elements[j])
      && (forall i :: 0 <= i < size ==> elements[i] in live && elements[i].capacity >= avpsize)
    }

    /** The blocks committed and not yet read, oldest first. */
    ghost function Contents(): seq<Block>
      requires Valid()
      reads this, elements
    {
      Held(elements[..], r, Count(r, w, size))
    }

    constructor (size: nat, avpsize: nat)
      requires size > 1
      ensures Valid() && this.size == size && this.avpsize == avpsize && Contents() == []
      ensures fresh(elements) && fresh(live)
    {
      this.size, this.avpsize := size, avpsize;
      var filler := new Block(avpsize);
      var blocks := new Block[size](_ => filler);
      elements := blocks;
      r, w := 0, 0;
      live := {filler};
      new;
      var i := 0;
      while i < size
        invariant i <= size && elements == blocks && elements.Length == size && fresh(live) && fresh(elements)
        invariant r == w == 0
        invariant forall j, k :: 0 <= j < k < i ==> elements[j] != elements[k]
        invariant forall j :: 0 <= j < i ==> elements[j] in live && elements[j].capacity == avpsize
      {
        var p := new Block(avpsize);
        assert forall j :: 0 <= j < i ==> elements[j] != p;
        elements[i] := p;
        live := live + {p};
        i := i + 1;
      }
    }

    /** Opening fails for fewer than two slots. */
    static method Open(size: int, avpsize: nat) returns (q: Queue?)
      ensures q == null <==> size <= 1
      ensures q != null ==> fresh(q) && q.Valid() && q.size == size && q.avpsize == avpsize && q.Contents() == []
    {
      if size > 1 {
        q := new Queue(size, avpsize);
      } else {
        q := null;
      }
    }

    /** `memory` says whether the allocator has room for a larger block. */
    method Write(psize: nat, memory: bool) returns (p: Block?)
      requires Valid()
      modifies elements, `live
      ensures Valid() && Contents() == old(Contents())
      ensures p == null <==> |Contents()| == size - 1 || (psize > avpsize && !memory)
      ensures p != null ==>
        && p == elements[w] && p !in Contents() && p.capacity >= psize
        && (if psize <= avpsize then p == old(elements[w]) && live == old(live)
            else fresh(p) && p.capacity == psize && live == old(live) - {old(elements[w])} + {p})
      ensures forall i :: 0 <= i < size && i != w ==> elements[i] == old(elements[i])
      ensures p == null ==> elements[..] == old(elements[..]) && live == old(live)
    {
      var nw := w + 1;
      if nw == size {
        nw := 0;
      }
      NotHeld();
      if nw == r {
        return null;
      }
      if psize <= avpsize {
        return elements[w];
      }
      if !memory {
        return null;
      }
      var q := new Block(psize);
      live := live - {elements[w]} + {q};
      assert forall i :: 0 <= i < size ==> elements[i] != q;
      elements[w] := q;
      assert Contents() == old(Contents());
      return q;
    }

    /** The slot at w holds none of the elements. */
    lemma NotHeld()
      requires Valid()
      ensures elements[w] !in Contents()
      ensures forall k :: 0 <= k < |Contents()| ==> At(r, k, size) != w
    {
      forall k | 0 <= k < |Contents()|
        ensures At(r, k, size) != w && elements[At(r, k, size)] != elements[w]
      {
        AtInjective(r, k, |Contents()|, size);
      }
    }

    /** A commit with no room left would pass r and forget everything held. */
    method WriteCommit()
      requires Valid()
      modifies `w
      ensures Valid()
      ensures Contents() == if |old(Contents())| < size - 1 then old(Contents()) + [elements[old(w)]] else []
    {
      var nw := w + 1;
      if nw == size {
        nw := 0;
      }
      w := nw;
    }

    /** Undoes the last commit if its element is still held; on an empty ring it fills it with stale blocks. */
    method WriteRollback()
      requires Valid()
      modifies `w
      ensures Valid()
      ensures var n := |old(Contents())|;
        if n > 0 then Contents() == old(Contents())[..n - 1] else |Contents()| == size - 1
    {
      var ow: nat;
      if w == 0 {
        ow := size - 1;
      } else {
        ow := w - 1;
      }
      w := ow;
    }

    method Read() returns (p: Block?)
      requires Valid()
      ensures if Contents() == [] then p == null else p == Contents()[0]
    {
      if r != w {
        return elements[r];
      }
      return null;
    }

    /** On an empty ring the commit would pass w and present stale blocks. */
    method ReadCommit()
      requires Valid()
      modifies `r
      ensures Valid()
      ensures if old(Contents()) != [] then Contents() == old(Contents())[1..] else |Contents()| == size - 1
    {
      var next := r;
      next := next + 1;
      if next == size {
        next := 0;
      }
      r := next;
    }

    method GetCnt() returns (n: nat)
      requires Valid()
      ensures n == |Contents()| < size
    {
      if r <= w {
        n := w - r;
      } else {
        n := size - (r - w);
      }
    }

    method Clear()
      requires Valid()
      modifies `r
      ensures Valid() && Contents() == []
    {
      r := w;
    }
  }
}
