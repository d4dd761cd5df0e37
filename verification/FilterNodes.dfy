/**
  The node structures of `lch/util/filter.c` and the operations that build, encode, decode and
  evaluate them.
 */
module FilterNodes {
  import opened FilterCodec

  class Node {
    var kind: byte
    var non: byte
    var len: nat
    var optionType: nat
    var op: byte
    var valueType: byte
    var value: seq<byte>
    var lchild: Node?
    var rchild: Node?
    ghost var Repr: set<Node>

    ghost predicate Valid()
      reads this, Repr
      decreases Repr
    {
      && this in Repr
      && (kind == FILTER_SINGLE || kind == FILTER_COMPOSITE_AND || kind == FILTER_COMPOSITE_OR)
      && (kind == FILTER_SINGLE ==> lchild == null && rchild == null && len == |value| + SINGLE_HEAD_SIZE)
      && (kind != FILTER_SINGLE ==>
            && lchild != null && rchild != null
            && lchild in Repr && rchild in Repr
            && lchild.Repr < Repr && rchild.Repr < Repr
            && this !in lchild.Repr && this !in rchild.Repr && lchild.Repr !! rchild.Repr
            && lchild.Valid() && rchild.Valid()
            && len == COMPOSE_HEAD_SIZE + lchild.len + rchild.len)
    }

    /** The tree the nodes hold. */
    ghost function Tree(): (f: Filter)
      requires Valid()
      reads this, Repr
      ensures Built(f) && f.len == len && f.non == non
      decreases Repr
    {
      if kind == FILTER_SINGLE then Filter.Single(non, len, optionType, op, valueType, value)
      else Filter.Compose(kind == FILTER_COMPOSITE_AND, non, len, lchild.Tree(), rchild.Tree())
    }

    constructor OfSingle(optionType: nat, op: byte, valueType: byte, value: seq<byte>)
      ensures Valid() && fresh(Repr)
      ensures Tree() == Filter.Single(0, |value| + SINGLE_HEAD_SIZE, optionType, op, valueType, value)
    {
      kind, non := FILTER_SINGLE, 0;
      this.optionType, this.op, this.valueType, this.value := optionType, op, valueType, value;
      len := |value| + SINGLE_HEAD_SIZE;
      lchild, rchild := null, null;
      Repr := {this};
    }

    /** `filter_and` and `filter_or` with release: the arguments become the children. */
    constructor OfBoth(conj: bool, left: Node, right: Node)
      requires left.Valid() && right.Valid() && left.Repr !! right.Repr
      ensures Valid() && fresh(Repr - left.Repr - right.Repr)
      ensures Tree() == Filter.Compose(conj, 0, COMPOSE_HEAD_SIZE + left.len + right.len, left.Tree(), right.Tree())
    {
      kind, non := Kind(conj), 0;
      len := COMPOSE_HEAD_SIZE + left.len + right.len;
      lchild, rchild := left, right;
      optionType, op, valueType, value := 0, 0, 0, [];
      Repr := {this} + left.Repr + right.Repr;
    }

    /** A composite whose children are never set. */
    constructor WithoutChildren(conj: bool, len: nat)
      ensures kind == Kind(conj) && non == 0 && this.len == len && lchild == null && rchild == null
    {
      kind, non, this.len := Kind(conj), 0, len;
      lchild, rchild := null, null;
      optionType, op, valueType, value := 0, 0, 0, [];
      Repr := {this};
    }

    /** Marks the node as negated; negating twice is negating once. */
    method Non()
      requires Valid()
      modifies this
      ensures Valid() && Repr == old(Repr)
      ensures Tree() == old(Tree()).(non := 1)
      ensures old(non) == 0 ==> forall compare: Compare ::
        Result(Tree(), compare) == if old(Result(Tree(), compare)) == 0 then 1 else 0
    {
      SetNon(1);
    }

    method EncodeHead(buf: array<byte>, at: nat)
      requires at + COMPOSE_HEAD_SIZE <= buf.Length
      modifies buf
      ensures Written(buf[..], old(buf[..]), at, Head(kind, non, len))
    {
      buf[at], buf[at + 1], buf[at + 2], buf[at + 3] := kind, non, High(len), Low(len);
    }

    function Detail(): seq<byte>
      reads this
    {
      [(valueType % 16) * 16 + op % 16, High(optionType), Low(optionType), Low(|value|)]
    }

    method EncodeDetail(buf: array<byte>, at: nat)
      requires at + 4 <= buf.Length
      modifies buf
      ensures Written(buf[..], old(buf[..]), at, Detail())
    {
      buf[at], buf[at + 1] := (valueType % 16) * 16 + op % 16, High(optionType);
      buf[at + 2], buf[at + 3] := Low(optionType), Low(|value|);
    }

    method EncodeFields(buf: array<byte>, at: nat)
      requires at + 8 + |value| <= buf.Length
      modifies buf
      ensures Written(buf[..], old(buf[..]), at, Head(kind, non, len) + Detail() + value)
    {
      ghost var b0 := buf[..];
      EncodeHead(buf, at);
      ghost var b1 := buf[..];
      EncodeDetail(buf, at + 4);
      ghost var b2 := buf[..];
      Copy(buf, at + 8, value);
      InTurn(b0, b1, b2, buf[..], at, Head(kind, non, len), Detail(), value);
    }

    method EncodeSingle(buf: array<byte>, at: nat)
      requires Valid() && kind == FILTER_SINGLE && at + len <= buf.Length
      modifies buf
      ensures Written(buf[..], old(buf[..]), at, Wire(Tree()))
    {
      assert Wire(Tree()) == Head(kind, non, len) + Detail() + value;
      EncodeFields(buf, at);
    }

    /** Writes the wire form from place `at` on and touches nothing else. */
    method EncodeAt(buf: array<byte>, at: nat, sofar: nat, ghost t: Filter) returns (total: nat)
      requires Valid() && t == Tree() && at + len <= buf.Length
      modifies buf
      ensures total == sofar + t.len
      ensures Written(buf[..], old(buf[..]), at, Wire(t))
      decreases Repr, 2
    {
      if kind == FILTER_SINGLE {
        EncodeSingle(buf, at);
        total := sofar + len;
      } else {
        total := EncodeBoth(buf, at, sofar, t);
      }
    }

    method EncodeBoth(buf: array<byte>, at: nat, sofar: nat, ghost t: Filter) returns (total: nat)
      requires Valid() && kind != FILTER_SINGLE && t == Tree() && at + len <= buf.Length
      modifies buf
      ensures total == sofar + t.len
      ensures Written(buf[..], old(buf[..]), at, Head(Kind(t.conj), t.non, t.len) + Wire(t.left) + Wire(t.right))
      decreases Repr, 1
    {
      ghost var front := Head(Kind(t.conj), t.non, t.len) + Wire(t.left);
      assert |front| == COMPOSE_HEAD_SIZE + lchild.len by {
        WireLength(t.left);
      }
      total := EncodeLeft(buf, at, sofar, t);
      ghost var b1 := buf[..];
      total := rchild.EncodeAt(buf, at + lchild.len + COMPOSE_HEAD_SIZE, total, t.right);
      TwoInTurn(old(buf[..]), b1, buf[..], at, front, Wire(t.right));
    }

    method EncodeLeft(buf: array<byte>, at: nat, sofar: nat, ghost t: Filter) returns (total: nat)
      requires Valid() && kind != FILTER_SINGLE && t == Tree() && at + len <= buf.Length
      modifies buf
      ensures total == sofar + COMPOSE_HEAD_SIZE + t.left.len
      ensures Written(buf[..], old(buf[..]), at, Head(Kind(t.conj), t.non, t.len) + Wire(t.left))
      decreases Repr, 0
    {
      EncodeHead(buf, at);
      ghost var b1 := buf[..];
      total := sofar + COMPOSE_HEAD_SIZE;
      total := lchild.EncodeAt(buf, at + COMPOSE_HEAD_SIZE, total, t.left);
      TwoInTurn(old(buf[..]), b1, buf[..], at, Head(Kind(t.conj), t.non, t.len), Wire(t.left));
    }

    /** `filter_encode`: a fresh buffer, `reserved` zero bytes first. */
    method Encode(reserved: nat) returns (buf: array<byte>, total: nat)
      requires Valid()
      ensures fresh(buf) && total == len && buf.Length == reserved + len
      ensures buf[reserved..] == Wire(Tree()) && forall i :: 0 <= i < reserved ==> buf[i] == 0
    {
      ghost var t := Tree();
      WireLength(t);
      buf := new byte[reserved + len](_ => 0);
      ghost var zeros := buf[..];
      total := EncodeAt(buf, reserved, 0, t);
      WrittenLast(buf[..], zeros, reserved, Wire(t));
    }

    /** `filter_encode_ext`: into the caller's buffer if it is large enough, else a length of 0. */
    method EncodeExt(buf: array<byte>, size: nat) returns (total: nat)
      requires Valid() && size <= buf.Length
      modifies buf
      ensures total == if len <= size then len else 0
      ensures total > 0 ==> buf[..len] == Wire(Tree()) && buf[len..] == old(buf[len..])
      ensures total == 0 ==> buf[..] == old(buf[..])
    {
      var p, n := Encode(0);
      total := n;
      if total <= size {
        forall i | 0 <= i < total {
          buf[i] := p[i];
        }
        assert buf[..len] == p[0..];
      } else {
        total := 0;
      }
    }

    /** Builds the nodes of the tree that `buf` starts with; null for what the decoder refuses. */
    static method DecodeAt(buf: seq<byte>) returns (f: Node?, past: bool, ghost d: Decoded)
      ensures d == FilterCodec.Decode(buf)
      ensures (f == null <==> !d.Tree?) && (past <==> d == Overrun)
      ensures f != null ==> fresh(f.Repr) && f.Valid() && f.Tree() == d.f
      decreases |buf|, 2
    {
      d := FilterCodec.Decode(buf);
      if |buf| < COMPOSE_HEAD_SIZE {
        f, past := null, true;
      } else if buf[0] == FILTER_SINGLE {
        f, past := DecodeSingle(buf);
      } else if buf[0] == FILTER_COMPOSITE_OR || buf[0] == FILTER_COMPOSITE_AND {
        f, past, d := DecodeBoth(buf);
      } else {
        f, past := null, false;
      }
    }

    static method DecodeBoth(buf: seq<byte>) returns (f: Node?, past: bool, ghost d: Decoded)
      requires |buf| >= COMPOSE_HEAD_SIZE
      requires buf[0] == FILTER_COMPOSITE_OR || buf[0] == FILTER_COMPOSITE_AND
      ensures d == FilterCodec.Decode(buf)
      ensures (f == null <==> !d.Tree?) && (past <==> d == Overrun)
      ensures f != null ==> fresh(f.Repr) && f.Valid() && f.Tree() == d.f
      decreases |buf|, 1
    {
      var l, pastLeft, dl := DecodeAt(buf[COMPOSE_HEAD_SIZE..]);
      if l == null || |buf| < COMPOSE_HEAD_SIZE + l.len {
        d := NoLeftChild(buf, dl);
        return null, pastLeft || l != null, d;
      }
      ghost var dr;
      f, past, dr := DecodeRight(buf, l, dl.f);
      d := RightChild(buf, dl.f, dr);
    }

    static method DecodeRight(buf: seq<byte>, l: Node, ghost tl: Filter)
      returns (f: Node?, past: bool, ghost dr: Decoded)
      requires l.Valid() && l.Tree() == tl && |buf| >= COMPOSE_HEAD_SIZE + tl.len
      ensures dr == FilterCodec.Decode(buf[COMPOSE_HEAD_SIZE + tl.len..])
      ensures var d := WithRight(buf, tl, dr);
        && (f == null <==> !d.Tree?) && (past <==> d == Overrun)
        && (f != null ==> fresh(f.Repr - l.Repr) && f.Valid() && f.Tree() == d.f)
      decreases |buf|, 0
    {
      ghost var known := l.Repr;
      assert allocated(known);
      var r;
      r, past, dr := DecodeAt(buf[COMPOSE_HEAD_SIZE + l.len..]);
      var high: int := buf[2];
      if r == null {
        return null, past, dr;
      }
      f := Join(buf[0] == FILTER_COMPOSITE_AND, buf[1], high * 256 + buf[3], l, r);
    }

    static method DecodeSingle(buf: seq<byte>) returns (f: Node?, past: bool)
      requires |buf| >= COMPOSE_HEAD_SIZE && buf[0] == FILTER_SINGLE
      ensures f != null ==> fresh(f.Repr) && f.Valid() && FilterCodec.Decode(buf) == Decoded.Tree(f.Tree())
      ensures (f == null <==> !FilterCodec.Decode(buf).Tree?) && (past <==> FilterCodec.Decode(buf) == Overrun)
    {
      if |buf| < SINGLE_HEAD_SIZE || |buf| < SINGLE_HEAD_SIZE + buf[7] {
        return null, true;
      }
      var high: int := buf[2];
      var value := buf[8..8 + buf[7]];
      if high * 256 + buf[3] != buf[7] + SINGLE_HEAD_SIZE {
        return null, false;
      }
      f := new Node.OfSingle(buf[6], buf[4] % 16, buf[4] / 16, value);
      f.non := buf[1];
      past := false;
    }

    /** A composite from its head and its decoded children, if the lengths agree. */
    static method Join(conj: bool, non: byte, len: nat, l: Node, r: Node) returns (f: Node?)
      requires l.Valid() && r.Valid() && l.Repr !! r.Repr
      ensures var d := Joined(conj, non, len, l.Tree(), r.Tree());
        && (f == null <==> !d.Tree?)
        && (f != null ==> f.Valid() && fresh(f.Repr - l.Repr - r.Repr) && f.Tree() == d.f)
    {
      if len != l.len + r.len + COMPOSE_HEAD_SIZE {
        return null;
      }
      f := new Node.OfBoth(conj, l, r);
      f.SetNon(non);
    }

    method SetNon(non: byte)
      requires Valid()
      modifies this
      ensures Valid() && Repr == old(Repr) && Tree() == old(Tree()).(non := non)
    {
      this.non := non;
    }

    /**
      `filter_decode`: the tree must use up the buffer.  `past` says that the program reads past the end of the
      buffer, which it does not check; what it returns then depends on the memory there.
     */
    static method Decode(buf: seq<byte>) returns (f: Node?, past: bool)
      ensures f != null ==> fresh(f.Repr) && f.Valid() && DecodeAll(buf) == Decoded.Tree(f.Tree())
      ensures (f == null <==> !DecodeAll(buf).Tree?) && (past <==> DecodeAll(buf) == Overrun)
    {
      if |buf| == 0 {
        return null, false;
      }
      ghost var d;
      f, past, d := DecodeAt(buf);
      if f != null && f.len != |buf| {
        f := null;
      }
    }

    /** A composite without children, as composition without release leaves it. */
    predicate Childless()
      reads this
    {
      (kind == FILTER_COMPOSITE_OR || kind == FILTER_COMPOSITE_AND) && (lchild == null || rchild == null)
    }

    /** `filter_logic_result`. */
    method LogicResult(compare: Compare) returns (rc: int)
      requires Valid() || Childless()
      ensures if Childless() then rc == 0 else rc == Result(Tree(), compare)
      decreases Repr
    {
      if kind != FILTER_SINGLE && (lchild == null || rchild == null) {
        return 0;
      }
      if kind == FILTER_SINGLE {
        rc := compare(optionType, op, value);
      } else if kind == FILTER_COMPOSITE_OR {
        rc := lchild.LogicResult(compare);
        if rc == 0 {
          rc := rchild.LogicResult(compare);
        }
        rc := Bool(rc != 0);
      } else {
        rc := lchild.LogicResult(compare);
        if rc != 0 {
          rc := rchild.LogicResult(compare);
        }
        rc := Bool(rc != 0);
      }
      if non == 1 {
        rc := Bool(rc == 0);
      }
    }
  }

  // ----- Building -----

  const DATATYPE_BYTE1: byte := 1
  const DATATYPE_BYTE2: byte := 2
  const DATATYPE_BYTE4: byte := 3
  const DATATYPE_BYTE8: byte := 4
  const DATATYPE_CHAR_STRING: byte := 5
  const DATATYPE_OCTET_STRING: byte := 6

  /** `strlen`: the characters before the first NUL. */
  function Strlen(memory: seq<byte>): (n: nat)
    requires 0 in memory
    ensures n < |memory| && memory[n] == 0 && 0 !in memory[..n]
  {
    if memory[0] == 0 then 0 else Strlen(memory[1..]) + 1
  }

  /** How many bytes of the memory at `value` belong to a value; `ex` is what `value_ex` points to. */
  function ValueLength(valueType: byte, memory: seq<byte>, ex: nat): nat
    requires valueType == DATATYPE_CHAR_STRING ==> 0 in memory
  {
    if valueType == DATATYPE_BYTE1 then 1
    else if valueType == DATATYPE_BYTE2 then 2
    else if valueType == DATATYPE_BYTE4 then 4
    else if valueType == DATATYPE_BYTE8 then 8
    else if valueType == DATATYPE_CHAR_STRING then Strlen(memory) + 1
    else ex
  }

  /** The bytes of a value: 1, 2, 4 or 8, a string up to its first NUL and with it, or the number given. */
  lemma ValueLengths(memory: seq<byte>, ex: nat)
    ensures ValueLength(1, memory, ex) == 1 && ValueLength(2, memory, ex) == 2
    ensures ValueLength(3, memory, ex) == 4 && ValueLength(4, memory, ex) == 8 && ValueLength(6, memory, ex) == ex
    ensures 0 in memory ==>
      var n := ValueLength(5, memory, ex);
      0 < n <= |memory| && memory[n - 1] == 0 && forall k :: 0 <= k < n - 1 ==> memory[k] != 0
  {}

  /** `filter_single`: none for a string of octets without a length. */
  method FilterSingle(optionType: nat, op: byte, valueType: byte, memory: seq<byte>, hasEx: bool, ex: nat)
    returns (f: Node?)
    requires DATATYPE_BYTE1 <= valueType <= DATATYPE_OCTET_STRING
    requires valueType == DATATYPE_CHAR_STRING ==> 0 in memory
    requires (valueType == DATATYPE_OCTET_STRING ==> hasEx) ==> ValueLength(valueType, memory, ex) <= |memory|
    ensures f == null <==> valueType == DATATYPE_OCTET_STRING && !hasEx
    ensures f != null ==>
      var n := ValueLength(valueType, memory, ex);
      && fresh(f.Repr) && f.Valid()
      && f.Tree() == Filter.Single(0, n + SINGLE_HEAD_SIZE, optionType, op, valueType, memory[..n])
      && (forall compare: Compare :: Result(f.Tree(), compare) == compare(optionType, op, memory[..n]))
  {
    if valueType == DATATYPE_OCTET_STRING && !hasEx {
      return null;
    }
    f := new Node.OfSingle(optionType, op, valueType, memory[..ValueLength(valueType, memory, ex)]);
  }

  /**
    `filter_and` and `filter_or`.  Without `release` the children are copied, but the copies are not attached: the
    composite has the length of both and no child.
   */
  method FilterCompose(conj: bool, left: Node?, right: Node?, release: bool) returns (f: Node?)
    requires left != null && right != null ==> left.Valid() && right.Valid() && left.Repr !! right.Repr
    ensures f == null <==> left == null || right == null
    ensures f != null ==> fresh(f) && f.kind == Kind(conj) && f.non == 0
    ensures f != null ==> f.len == COMPOSE_HEAD_SIZE + left.len + right.len
    ensures f != null && release ==>
      && f.Valid() && fresh(f.Repr - left.Repr - right.Repr)
      && f.Tree() == Filter.Compose(conj, 0, f.len, left.Tree(), right.Tree())
    ensures f != null && release && conj ==> forall compare: Compare ::
      Result(f.Tree(), compare) != 0 <==> Result(left.Tree(), compare) != 0 && Result(right.Tree(), compare) != 0
    ensures f != null && release && !conj ==> forall compare: Compare ::
      Result(f.Tree(), compare) != 0 <==> Result(left.Tree(), compare) != 0 || Result(right.Tree(), compare) != 0
    ensures f != null && !release ==> f.lchild == null && f.rchild == null && f.Childless() && !f.Valid()
  {
    if left == null || right == null {
      return null;
    }
    if release {
      f := new Node.OfBoth(conj, left, right);
    } else {
      f := new Node.WithoutChildren(conj, COMPOSE_HEAD_SIZE + left.len + right.len);
    }
  }

  /** Two filters joined and evaluated, and what they answer alone; without release the answer is 0. */
  method JoinedAnswer(conj: bool, left: Node, right: Node, release: bool, compare: Compare)
    returns (rl: int, rr: int, rc: int)
    requires left.Valid() && right.Valid() && left.Repr !! right.Repr
    ensures rl == Result(left.Tree(), compare) && rr == Result(right.Tree(), compare)
    ensures rc == (if !release then 0
                   else if conj then if rl != 0 && rr != 0 then 1 else 0
                   else if rl != 0 || rr != 0 then 1 else 0)
  {
    rl := left.LogicResult(compare);
    rr := right.LogicResult(compare);
    rc := ComposedAnswer(conj, left, right, release, compare);
  }

  method ComposedAnswer(conj: bool, left: Node, right: Node, release: bool, compare: Compare) returns (rc: int)
    requires left.Valid() && right.Valid() && left.Repr !! right.Repr
    ensures var len := COMPOSE_HEAD_SIZE + left.len + right.len;
      rc == if release then Result(Filter.Compose(conj, 0, len, left.Tree(), right.Tree()), compare) else 0
  {
    var f := FilterCompose(conj, left, right, release);
    rc := f.LogicResult(compare);
  }

  /** `filter_logic_result` takes any pointer: null answers -1. */
  method Answer(f: Node?, compare: Compare) returns (rc: int)
    requires f != null ==> f.Valid() || f.Childless()
    ensures rc == if f == null then -1 else if f.Childless() then 0 else Result(f.Tree(), compare)
  {
    if f == null {
      return -1;
    }
    rc := f.LogicResult(compare);
  }

  /** What a composite decodes to once its left child has. */
  ghost function WithRight(buf: seq<byte>, tl: Filter, dr: Decoded): Decoded
    requires |buf| >= COMPOSE_HEAD_SIZE
  {
    var high: int := buf[2];
    if !dr.Tree? then dr
    else Joined(buf[0] == FILTER_COMPOSITE_AND, buf[1], high * 256 + buf[3], tl, dr.f)
  }

  lemma NoLeftChild(buf: seq<byte>, dl: Decoded) returns (d: Decoded)
    requires |buf| >= COMPOSE_HEAD_SIZE && dl == Decode(buf[COMPOSE_HEAD_SIZE..])
    requires buf[0] == FILTER_COMPOSITE_OR || buf[0] == FILTER_COMPOSITE_AND
    requires dl.Tree? ==> |buf| < COMPOSE_HEAD_SIZE + dl.f.len
    ensures d == Decode(buf) && !d.Tree? && (d == Overrun <==> dl == Overrun || dl.Tree?)
  {
    d := Decode(buf);
  }

  lemma RightChild(buf: seq<byte>, tl: Filter, dr: Decoded) returns (d: Decoded)
    requires |buf| >= COMPOSE_HEAD_SIZE + tl.len
    requires buf[0] == FILTER_COMPOSITE_OR || buf[0] == FILTER_COMPOSITE_AND
    requires Decode(buf[COMPOSE_HEAD_SIZE..]) == Decoded.Tree(tl) && dr == Decode(buf[COMPOSE_HEAD_SIZE + tl.len..])
    ensures d == Decode(buf) && d == WithRight(buf, tl, dr)
  {
    d := Decode(buf);
  }

  /** `now` is `was` with `data` written from place `at` on. */
  predicate Written(now: seq<byte>, was: seq<byte>, at: nat, data: seq<byte>) {
    && |now| == |was| && at + |data| <= |was|
    && now[..at] == was[..at] && now[at..at + |data|] == data && now[at + |data|..] == was[at + |data|..]
  }

  method Copy(buf: array<byte>, at: nat, data: seq<byte>)
    requires at + |data| <= buf.Length
    modifies buf
    ensures Written(buf[..], old(buf[..]), at, data)
  {
    forall i | 0 <= i < |data| {
      buf[at + i] := data[i];
    }
  }

  /** Three parts written one behind the other. */
  lemma InTurn(b0: seq<byte>, b1: seq<byte>, b2: seq<byte>, b3: seq<byte>,
               at: nat, x: seq<byte>, y: seq<byte>, z: seq<byte>)
    requires Written(b1, b0, at, x) && Written(b2, b1, at + |x|, y) && Written(b3, b2, at + |x| + |y|, z)
    ensures Written(b3, b0, at, x + y + z)
  {
    TwoInTurn(b0, b1, b2, at, x, y);
    TwoInTurn(b0, b2, b3, at, x + y, z);
  }

  lemma WrittenLast(now: seq<byte>, was: seq<byte>, at: nat, data: seq<byte>)
    requires Written(now, was, at, data) && at + |data| == |was| && forall i :: 0 <= i < at ==> was[i] == 0
    ensures now[at..] == data && forall i :: 0 <= i < at ==> now[i] == 0
  {
    assert now[at..] == now[at..at + |data|];
    forall i | 0 <= i < at
      ensures now[i] == 0
    {
      assert now[i] == now[..at][i] == was[..at][i];
    }
  }

  lemma TwoInTurn(b0: seq<byte>, b1: seq<byte>, b2: seq<byte>, at: nat, x: seq<byte>, y: seq<byte>)
    requires Written(b1, b0, at, x) && Written(b2, b1, at + |x|, y)
    ensures Written(b2, b0, at, x + y)
  {
    var m, e := at + |x|, at + |x| + |y|;
    assert b2[..at] == b2[..m][..at] && b1[..m][..at] == b1[..at];
    assert b2[at..e] == b2[..m][at..] + b2[m..e] && b1[..m][at..] == b1[at..m];
    assert b1[e..] == b1[m..][|y|..] && b0[e..] == b0[m..][|y|..];
  }
}
