/**
  The pool of buffers cut out of one arena (`lch/util/bufmgr.c`).  Addresses are numbers and zero is the null
  pointer; the free list runs through the first word of each free block.
 */
module BufMgr {
  import opened Arithmetic

  /** The size of a pointer, and of the header of a block. */
  const WORD := 8

  /** The size of a block: its header, and the buffer rounded up to whole words. */
  function BlockSize(bufsize: nat): (r: nat)
    ensures WORD + bufsize <= r < 2 * WORD + bufsize && r % WORD == 0
  {
    WORD + (bufsize + (WORD - 1)) / WORD * WORD
  }

  /** Block `i` of an arena. */
  function Block(base: nat, rbufsize: nat, i: nat): nat {
    base + i * rbufsize
  }

  /** Different blocks do not overlap. */
  lemma BlocksApart(base: nat, rbufsize: nat, i: nat, j: nat)
    requires i < j
    ensures Block(base, rbufsize, i) + rbufsize <= Block(base, rbufsize, j)
  {
    TimesGrows(i + 1, j, rbufsize);
  }

  lemma BlocksInside(base: nat, rbufsize: nat, size: nat, i: nat)
    requires rbufsize > 0 && i < size / rbufsize
    ensures Block(base, rbufsize, i) + rbufsize <= base + size
  {
    TimesGrows(i + 1, size / rbufsize, rbufsize);
  }

  lemma SameBlock(base: nat, rbufsize: nat, i: nat, j: nat)
    requires rbufsize > 0 && Block(base, rbufsize, i) == Block(base, rbufsize, j)
    ensures i == j
  {
    if i < j {
      BlocksApart(base, rbufsize, i, j);
    } else if j < i {
      BlocksApart(base, rbufsize, j, i);
    }
  }

  // ----- The free list -----

  datatype Arena = Arena(base: nat, rbufsize: nat, rnum: nat)

  /** The address of the first block of a list of blocks. */
  function Head(a: Arena, blocks: seq<nat>): nat {
    if blocks == [] then 0 else Block(a.base, a.rbufsize, blocks[0])
  }

  /** The list that starts at `free` goes through exactly these blocks. */
  ghost predicate Chain(a: Arena, next: map<nat, nat>, free: nat, blocks: seq<nat>)
    decreases blocks
  {
    && free == Head(a, blocks)
    && (blocks != [] ==>
      && blocks[0] < a.rnum && free in next
      && Chain(a, next, next[free], blocks[1..]))
  }

  ghost predicate Distinct(blocks: seq<nat>) {
    forall i, j :: 0 <= i < j < |blocks| ==> blocks[i] != blocks[j]
  }

  /** Some list of different blocks is free, and all others are counted as used. */
  ghost predicate Good(a: Arena, next: map<nat, nat>, free: nat, used: int) {
    exists blocks: seq<nat> :: Chain(a, next, free, blocks) && Distinct(blocks) && used + |blocks| == a.rnum
  }

  /** Writing the header of a block outside the list leaves the list. */
  lemma {:induction false} ChainKept(a: Arena, next: map<nat, nat>, free: nat, blocks: seq<nat>, p: nat, v: nat)
    requires Chain(a, next, free, blocks) && a.rbufsize > 0
    requires forall k :: 0 <= k < |blocks| ==> p != Block(a.base, a.rbufsize, blocks[k])
    ensures Chain(a, next[p := v], free, blocks)
    decreases |blocks|
  {
    if blocks != [] {
      assert p != Block(a.base, a.rbufsize, blocks[0]);
      ChainKept(a, next, next[free], blocks[1..], p, v);
    }
  }

  /** A list that starts at an address is determined by the headers. */
  lemma {:induction false} ChainSame(a: Arena, next: map<nat, nat>, free: nat, x: seq<nat>, y: seq<nat>)
    requires a.base > 0 && a.rbufsize > 0 && Chain(a, next, free, x) && Chain(a, next, free, y)
    ensures x == y
    decreases |x|
  {
    if x != [] && y != [] {
      SameBlock(a.base, a.rbufsize, x[0], y[0]);
      ChainSame(a, next, next[free], x[1..], y[1..]);
      assert x == [x[0]] + x[1..] && y == [y[0]] + y[1..];
    }
  }

  /** Up to the block whose header was written, the old list and the new one agree. */
  lemma {:induction false} ChainPrefix(a: Arena, next: map<nat, nat>, free: nat, x: seq<nat>, y: seq<nat>,
                                       p: nat, v: nat, k: nat)
    requires a.base > 0 && a.rbufsize > 0
    requires Chain(a, next, free, x) && Chain(a, next[p := v], free, y)
    requires k < |x| && p == Block(a.base, a.rbufsize, x[k])
    requires forall j :: 0 <= j < k ==> x[j] != x[k]
    ensures k < |y| && y[k] == x[k]
    decreases k
  {
    SameBlock(a.base, a.rbufsize, x[0], y[0]);
    if k > 0 {
      if free == p {
        SameBlock(a.base, a.rbufsize, x[0], x[k]);
      }
      ChainPrefix(a, next, next[free], x[1..], y[1..], p, v, k - 1);
    }
  }

  /** Is this the buffer of a block that is not in the free list? */
  ghost predicate Live(a: Arena, blocks: seq<nat>, buf: int) {
    exists i: nat :: i < a.rnum && i !in blocks && buf == Block(a.base, a.rbufsize, i) + WORD
  }

  /** Giving back a buffer keeps the pool good exactly when the buffer is handed out. */
  lemma FreeExactly(a: Arena, next: map<nat, nat>, free: nat, used: int, blocks: seq<nat>, buf: nat)
    requires a.base > 0 && a.rbufsize > 0 && buf > WORD
    requires Chain(a, next, free, blocks) && Distinct(blocks) && used + |blocks| == a.rnum
    ensures Good(a, next[buf - WORD := free], buf - WORD, used - 1) <==> Live(a, blocks, buf)
  {
    var p := buf - WORD;
    var next' := next[p := free];
    if Live(a, blocks, buf) {
      var i: nat :| i < a.rnum && i !in blocks && buf == Block(a.base, a.rbufsize, i) + WORD;
      FreeLive(a, next, free, blocks, i);
      assert Chain(a, next', p, [i] + blocks) && Distinct([i] + blocks);
    }
    if Good(a, next', p, used - 1) {
      var y: seq<nat> :| Chain(a, next', p, y) && Distinct(y) && used - 1 + |y| == a.rnum;
      NotFree(a, next, free, blocks, y, p);
    }
  }

  lemma FreeLive(a: Arena, next: map<nat, nat>, free: nat, blocks: seq<nat>, i: nat)
    requires a.rbufsize > 0 && Chain(a, next, free, blocks) && Distinct(blocks) && i < a.rnum && i !in blocks
    ensures var p := Block(a.base, a.rbufsize, i);
      Chain(a, next[p := free], p, [i] + blocks) && Distinct([i] + blocks)
  {
    var p := Block(a.base, a.rbufsize, i);
    forall k | 0 <= k < |blocks|
      ensures p != Block(a.base, a.rbufsize, blocks[k])
    {
      if p == Block(a.base, a.rbufsize, blocks[k]) {
        SameBlock(a.base, a.rbufsize, i, blocks[k]);
      }
    }
    ChainKept(a, next, free, blocks, p, free);
    assert ([i] + blocks)[1..] == blocks;
  }

  /** After a block is put before the list, a list of different blocks is only possible if it was not in it. */
  lemma NotFree(a: Arena, next: map<nat, nat>, free: nat, blocks: seq<nat>, y: seq<nat>, p: nat)
    requires a.base > 0 && a.rbufsize > 0 && p > 0
    requires Chain(a, next, free, blocks) && Distinct(blocks)
    requires Chain(a, next[p := free], p, y) && Distinct(y)
    ensures y != [] && y[0] < a.rnum && y[0] !in blocks && p == Block(a.base, a.rbufsize, y[0])
  {
    if y[0] in blocks {
      var k :| 0 <= k < |blocks| && blocks[k] == y[0];
      ChainPrefix(a, next, free, blocks, y[1..], p, free, k);
    }
  }

  /** The blocks from `i` on. */
  function From(i: nat, n: nat): seq<nat>
    decreases n - i
  {
    if i >= n then [] else [i] + From(i + 1, n)
  }

  lemma {:induction false} FromIs(i: nat, n: nat)
    requires i <= n
    ensures |From(i, n)| == n - i && forall k :: 0 <= k < n - i ==> From(i, n)[k] == i + k
    decreases n - i
  {
    if i < n {
      FromIs(i + 1, n);
    }
  }

  /** The block after block `i`, or null. */
  function After(a: Arena, i: nat): nat {
    if i + 1 < a.rnum then Block(a.base, a.rbufsize, i + 1) else 0
  }

  /** The header of each of the first `n` blocks leads to the next block. */
  ghost predicate Threaded(a: Arena, next: map<nat, nat>, n: nat) {
    forall i: nat :: i < n ==>
      Block(a.base, a.rbufsize, i) in next && next[Block(a.base, a.rbufsize, i)] == After(a, i)
  }

  lemma {:induction false} ThreadedChain(a: Arena, next: map<nat, nat>, i: nat)
    requires Threaded(a, next, a.rnum) && i < a.rnum
    ensures Chain(a, next, Block(a.base, a.rbufsize, i), From(i, a.rnum))
    decreases a.rnum - i
  {
    assert From(i, a.rnum)[1..] == From(i + 1, a.rnum);
    if i + 1 < a.rnum {
      ThreadedChain(a, next, i + 1);
    } else {
      assert After(a, i) == 0 && Chain(a, next, 0, []);
    }
  }

  lemma ThreadNext(a: Arena, next: map<nat, nat>, i: nat)
    requires a.rbufsize > 0 && Threaded(a, next, i) && i < a.rnum
    ensures Threaded(a, next[Block(a.base, a.rbufsize, i) := After(a, i)], i + 1)
  {
    forall j: nat | j < i
      ensures Block(a.base, a.rbufsize, j) != Block(a.base, a.rbufsize, i)
    {
      BlocksApart(a.base, a.rbufsize, j, i);
    }
  }

  /** The buffers that are handed out lie apart from each other and inside the arena. */
  lemma LiveApart(a: Arena, blocks: seq<nat>, p: nat, q: nat)
    requires Live(a, blocks, p) && Live(a, blocks, q) && p != q
    ensures p + a.rbufsize <= q || q + a.rbufsize <= p
  {
    var i: nat :| i < a.rnum && i !in blocks && p == Block(a.base, a.rbufsize, i) + WORD;
    var j: nat :| j < a.rnum && j !in blocks && q == Block(a.base, a.rbufsize, j) + WORD;
    if i < j {
      BlocksApart(a.base, a.rbufsize, i, j);
    } else {
      BlocksApart(a.base, a.rbufsize, j, i);
    }
  }

  lemma LiveInside(a: Arena, size: nat, blocks: seq<nat>, p: nat)
    requires a.rbufsize >= WORD && a.rnum == size / a.rbufsize && Live(a, blocks, p)
    ensures a.base + WORD <= p <= Block(a.base, a.rbufsize, a.rnum - 1) + WORD
    ensures p + a.rbufsize - WORD <= a.base + size
  {
    var i: nat :| i < a.rnum && i !in blocks && p == Block(a.base, a.rbufsize, i) + WORD;
    BlocksInside(a.base, a.rbufsize, size, i);
    TimesGrows(i, a.rnum - 1, a.rbufsize);
  }

  class Pool {
    const base: nat
    const size: nat
    const bufsize: nat
    const rbufsize: nat
    const rnum: nat
    const lastbuf: nat
    var used: int
    var free: nat

    /** The headers of the blocks. */
    var next: map<nat, nat>

    /** The blocks of the free list. */
    ghost var blocks: seq<nat>

    ghost function Shape(): Arena {
      Arena(base, rbufsize, rnum)
    }

    ghost predicate Fixed() {
      && base > 0 && bufsize > 0 && rbufsize == BlockSize(bufsize) && rnum == size / rbufsize && rnum > 0
      && lastbuf == Block(base, rbufsize, rnum - 1)
    }

    ghost predicate Valid()
      reads this
    {
      Fixed() && Chain(Shape(), next, free, blocks) && Distinct(blocks) && used + |blocks| == rnum
    }

    constructor (base: nat, size: nat, bufsize: nat)
      requires base > 0 && bufsize > 0 && BlockSize(bufsize) <= size
      ensures Valid() && this.base == base && this.size == size && this.bufsize == bufsize
      ensures used == 0 && blocks == From(0, rnum)
    {
      var rbufsize := BlockSize(bufsize);
      var rnum := size / rbufsize;
      AtLeastOne(size, rbufsize);
      this.base, this.size, this.bufsize, this.rbufsize, this.rnum := base, size, bufsize, rbufsize, rnum;
      lastbuf := Block(base, rbufsize, rnum - 1);
      free := base;
      used := 0;
      ghost var a := Arena(base, rbufsize, rnum);
      var i := 0;
      var headers: map<nat, nat> := map[];
      while i < rnum
        invariant i <= rnum && Threaded(a, headers, i)
      {
        ThreadNext(a, headers, i);
        var v := if i != rnum - 1 then Block(base, rbufsize, i + 1) else 0;
        headers := headers[Block(base, rbufsize, i) := v];
        i := i + 1;
      }
      next := headers;
      blocks := From(0, rnum);
      ThreadedChain(a, headers, 0);
      FromIs(0, rnum);
    }

    /** `bufmgr_alloc`: a buffer that is not handed out, or null when every block is. */
    method Alloc() returns (p: nat)
      requires Valid()
      modifies this`free, this`used, this`blocks
      ensures Valid() && (p == 0 <==> old(blocks) == [])
      ensures p == 0 ==> blocks == old(blocks) && used == old(used)
      ensures p != 0 ==> blocks == old(blocks)[1..] && used == old(used) + 1
      ensures p != 0 ==> Live(Shape(), blocks, p) && !Live(Shape(), old(blocks), p)
      ensures forall q: nat :: Live(Shape(), old(blocks), q) ==> Live(Shape(), blocks, q)
    {
      if free == 0 {
        return 0;
      }
      ghost var i := blocks[0];
      p := free + WORD;
      forall j: nat | Block(base, rbufsize, i) == Block(base, rbufsize, j)
        ensures i == j
      {
        SameBlock(base, rbufsize, i, j);
      }
      free := next[free];
      used := used + 1;
      blocks := blocks[1..];
    }

    /** Is the pointer null, or outside the addresses of buffers? */
    predicate Ignored(buf: nat) {
      buf == 0 || buf < base + WORD || buf > lastbuf + WORD
    }

    /** `bufmgr_free`: the pool stays good exactly when the pointer is ignored or handed out. */
    method Free(buf: nat)
      requires Valid()
      modifies this`free, this`used, this`next, this`blocks
      ensures Valid() <==> Ignored(buf) || Live(Shape(), old(blocks), buf)
      ensures Good(Shape(), next, free, used) <==> Valid()
      ensures Ignored(buf) ==>
        free == old(free) && used == old(used) && next == old(next) && blocks == old(blocks)
      ensures !Ignored(buf) ==>
        free == buf - WORD && used == old(used) - 1 && next == old(next)[buf - WORD := old(free)]
      ensures Live(Shape(), old(blocks), buf) ==> !Live(Shape(), blocks, buf) && blocks[1..] == old(blocks)
    {
      if Live(Shape(), blocks, buf) {
        LiveInside(Shape(), size, blocks, buf);
      }
      if buf == 0 || buf < base + WORD || buf > lastbuf + WORD {
        return;
      }
      FreeExactly(Shape(), next, free, used, blocks, buf);
      ghost var was := blocks;
      if Live(Shape(), blocks, buf) {
        ghost var i: nat :| i < rnum && i !in blocks && buf == Block(base, rbufsize, i) + WORD;
        FreeLive(Shape(), next, free, blocks, i);
        forall j: nat | Block(base, rbufsize, i) == Block(base, rbufsize, j)
          ensures i == j
        {
          SameBlock(base, rbufsize, i, j);
        }
        blocks := [i] + blocks;
      }
      next := next[buf - WORD := free];
      free := buf - WORD;
      used := used - 1;
    }
  }

  lemma AtLeastOne(x: nat, p: nat)
    requires 0 < p <= x
    ensures x / p > 0
  {
    var q, r := x / p, x % p;
    assert x == q * p + r;
  }

  /** `bufmgr_open`: none for a null arena, for buffers of no size, or where not one block fits. */
  method OpenPool(base: nat, size: int, bufsize: int) returns (h: Pool?)
    requires bufsize < 0x7fff_fff0
    ensures h == null <==> base == 0 || bufsize <= 0 || size < BlockSize(bufsize)
    ensures h != null ==> fresh(h) && h.Valid() && h.base == base && h.size == size && h.bufsize == bufsize
    ensures h != null ==> h.used == 0
  {
    if base == 0 || bufsize <= 0 || size < BlockSize(bufsize) {
      return null;
    }
    h := new Pool(base, size, bufsize);
  }
}
