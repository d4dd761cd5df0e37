/**
  The filter trees of `lch/util/filter.c`: their encoding, decoding and evaluation.
 */
module FilterCodec {
  type byte = b: int | 0 <= b < 256

  const COMPOSE_HEAD_SIZE := 4
  const SINGLE_HEAD_SIZE := 8

  const FILTER_SINGLE: byte := 1
  const FILTER_COMPOSITE_AND: byte := 2
  const FILTER_COMPOSITE_OR: byte := 3

  /** A tree as the node structures hold it; lengths are stored, not computed. */
  datatype Filter =
    | Single(non: byte, len: nat, optionType: nat, op: byte, valueType: byte, value: seq<byte>)
    | Compose(conj: bool, non: byte, len: nat, left: Filter, right: Filter)

  /** Lengths as the constructors set them. */
  predicate Built(f: Filter) {
    match f
    case Single(_, len, _, _, _, value) => len == |value| + SINGLE_HEAD_SIZE
    case Compose(_, _, len, l, r) => Built(l) && Built(r) && len == COMPOSE_HEAD_SIZE + l.len + r.len
  }

  // ----- The wire form -----

  function Low(n: nat): byte {
    n % 256
  }

  function High(n: nat): byte {
    (n / 256) % 256
  }

  function Head(kind: byte, non: byte, len: nat): seq<byte> {
    [kind, non, High(len), Low(len)]
  }

  function Kind(conj: bool): byte {
    if conj then FILTER_COMPOSITE_AND else FILTER_COMPOSITE_OR
  }

  function Wire(f: Filter): seq<byte> {
    match f
    case Single(non, len, optionType, op, valueType, value) =>
      Head(FILTER_SINGLE, non, len) +
      [(valueType % 16) * 16 + op % 16, High(optionType), Low(optionType), Low(|value|)] + value
    case Compose(conj, non, len, l, r) => Head(Kind(conj), non, len) + Wire(l) + Wire(r)
  }

  lemma {:induction false} WireLength(f: Filter)
    requires Built(f)
    ensures |Wire(f)| == f.len
  {
    if f.Compose? {
      WireLength(f.left);
      WireLength(f.right);
    }
  }

  /** Two octets as a number. */
  function Word(high: byte, low: byte): nat {
    (high as int) * 256 + low
  }

  /** Where a reader of the protocol finds the fields of a leaf. */
  lemma LeafOctets(f: Filter)
    requires f.Single? && Built(f) && NearlyFits(f) && f.optionType < 65536
    ensures var w := Wire(f);
      && |w| == 8 + |f.value| && w[0] == 1 && w[1] == f.non && Word(w[2], w[3]) == |w|
      && w[4] / 16 == f.valueType && w[4] % 16 == f.op && Word(w[5], w[6]) == f.optionType
      && w[7] == |f.value| && w[8..] == f.value
  {
    LowHigh(f.len);
    LowHigh(f.optionType);
    Nibbles(f.valueType, f.op);
  }

  lemma Nibbles(high: byte, low: byte)
    requires high < 16 && low < 16
    ensures ((high % 16) * 16 + low % 16) / 16 == high && ((high % 16) * 16 + low % 16) % 16 == low
  {}

  /** The same for a composite: its children follow, the left one first. */
  lemma CompositeOctets(f: Filter)
    requires f.Compose? && Built(f) && NearlyFits(f)
    ensures var w, l := Wire(f), Wire(f.left);
      && |w| == 4 + |l| + |Wire(f.right)| && w[0] == (if f.conj then 2 else 3) && w[1] == f.non
      && Word(w[2], w[3]) == |w| && w[4..4 + |l|] == l && w[4 + |l|..] == Wire(f.right)
  {
    WireLength(f);
    LowHigh(f.len);
    var head, l, r := Head(Kind(f.conj), f.non, f.len), Wire(f.left), Wire(f.right);
    assert Wire(f) == head + l + r && (head + l + r)[4..4 + |l|] == l && (head + l + r)[4 + |l|..] == r;
  }

  /** Overrun stands for reading past the buffer, which the decoder does not check. */
  datatype Decoded = Tree(f: Filter) | Refused | Overrun

  function Decode(buf: seq<byte>): Decoded
    decreases |buf|
  {
    if |buf| < COMPOSE_HEAD_SIZE then Overrun
    else
      var high: int := buf[2];
      var len := high * 256 + buf[3];
      if buf[0] == FILTER_SINGLE then
        if |buf| < SINGLE_HEAD_SIZE || |buf| < SINGLE_HEAD_SIZE + buf[7] then Overrun
        else if len != buf[7] + SINGLE_HEAD_SIZE then Refused
        else Tree(Single(buf[1], len, buf[6], buf[4] % 16, buf[4] / 16, buf[8..8 + buf[7]]))
      else if buf[0] == FILTER_COMPOSITE_OR || buf[0] == FILTER_COMPOSITE_AND then
        var l := Decode(buf[COMPOSE_HEAD_SIZE..]);
        if !l.Tree? then l
        else if |buf| < COMPOSE_HEAD_SIZE + l.f.len then Overrun
        else
          var r := Decode(buf[COMPOSE_HEAD_SIZE + l.f.len..]);
          if !r.Tree? then r else Joined(buf[0] == FILTER_COMPOSITE_AND, buf[1], len, l.f, r.f)
      else Refused
  }

  function Joined(conj: bool, non: byte, len: nat, l: Filter, r: Filter): Decoded {
    if len != l.len + r.len + COMPOSE_HEAD_SIZE then Refused else Tree(Compose(conj, non, len, l, r))
  }

  // ----- Round trip -----

  /** All that the wire form can carry. */
  predicate Fits(f: Filter) {
    && f.len < 65536
    && match f
       case Single(_, _, optionType, op, valueType, value) =>
         optionType < 256 && |value| < 256 && op < 16 && valueType < 16
       case Compose(_, _, _, l, r) => Fits(l) && Fits(r)
  }

  /** The same but for the high octet of the option types, which the decoder drops. */
  predicate NearlyFits(f: Filter) {
    && f.len < 65536
    && match f
       case Single(_, _, _, op, valueType, value) => |value| < 256 && op < 16 && valueType < 16
       case Compose(_, _, _, l, r) => NearlyFits(l) && NearlyFits(r)
  }

  function Narrow(f: Filter): Filter {
    match f
    case Single(_, _, optionType, _, _, _) => f.(optionType := optionType % 256)
    case Compose(_, _, _, l, r) => f.(left := Narrow(l), right := Narrow(r))
  }

  lemma {:induction false} NarrowFits(f: Filter)
    requires NearlyFits(f)
    ensures Narrow(f).len == f.len
    ensures Narrow(f) == f <==> Fits(f)
  {
    if f.Compose? {
      NarrowFits(f.left);
      NarrowFits(f.right);
    }
  }

  /** Decoding reads back what was encoded, whatever follows, but for the high octet of the option types. */
  lemma {:induction false} DecodeWire(f: Filter, more: seq<byte>)
    requires Built(f) && NearlyFits(f)
    ensures Decode(Wire(f) + more) == Tree(Narrow(f))
    decreases f
  {
    if f.Single? {
      DecodeSingle(f, more);
    } else {
      var l, r := f.left, f.right;
      DecodeWire(l, Wire(r) + more);
      DecodeWire(r, more);
      WireLength(l);
      DecodeBoth(f, Wire(l), Wire(r), more);
    }
  }

  lemma DecodeBoth(f: Filter, wl: seq<byte>, wr: seq<byte>, more: seq<byte>)
    requires f.Compose? && Built(f) && NearlyFits(f) && |wl| == f.left.len
    requires Decode(wl + (wr + more)) == Tree(Narrow(f.left)) && Decode(wr + more) == Tree(Narrow(f.right))
    ensures Decode(Head(Kind(f.conj), f.non, f.len) + wl + wr + more) == Tree(Narrow(f))
  {
    NarrowFits(f.left);
    JoinBack(f);
    DecodeCompose(Head(Kind(f.conj), f.non, f.len), wl, wr, more);
  }

  lemma JoinBack(f: Filter)
    requires f.Compose? && Built(f) && NearlyFits(f)
    ensures var head := Head(Kind(f.conj), f.non, f.len);
      var high: int := head[2];
      Joined(head[0] == FILTER_COMPOSITE_AND, head[1], high * 256 + head[3], Narrow(f.left), Narrow(f.right)) ==
        Tree(Narrow(f))
  {
    NarrowFits(f.left);
    NarrowFits(f.right);
    LowHigh(f.len);
  }

  lemma LowHigh(n: nat)
    requires n < 65536
    ensures (High(n) as int) * 256 + Low(n) == n && Word(High(n), Low(n)) == n
  {}

  lemma DecodeSingle(f: Filter, more: seq<byte>)
    requires f.Single? && Built(f) && NearlyFits(f)
    ensures Decode(Wire(f) + more) == Tree(Narrow(f))
  {
    var buf := Wire(f) + more;
    SingleAt(f, more);
    LowHigh(f.len);
    Nibbles(f.valueType, f.op);
    DecodedSingle(buf, f.len, f.value);
  }

  /** Where the octets of a leaf stand. */
  lemma SingleAt(f: Filter, more: seq<byte>)
    requires f.Single? && |f.value| < 256
    ensures var buf := Wire(f) + more;
      && |buf| >= SINGLE_HEAD_SIZE + |f.value| && buf[0] == FILTER_SINGLE && buf[1] == f.non
      && buf[2] == High(f.len) && buf[3] == Low(f.len) && buf[4] == (f.valueType % 16) * 16 + f.op % 16
      && buf[6] == Low(f.optionType) && buf[7] == |f.value| && buf[8..8 + |f.value|] == f.value
  {}

  lemma DecodedSingle(buf: seq<byte>, len: nat, value: seq<byte>)
    requires |buf| >= SINGLE_HEAD_SIZE + |value| && buf[0] == FILTER_SINGLE && Word(buf[2], buf[3]) == len
    requires buf[7] == |value| && len == |value| + SINGLE_HEAD_SIZE && buf[8..8 + |value|] == value
    ensures Decode(buf) == Tree(Single(buf[1], len, buf[6], buf[4] % 16, buf[4] / 16, value))
  {}

  lemma DecodeCompose(head: seq<byte>, wl: seq<byte>, wr: seq<byte>, more: seq<byte>)
    requires |head| == COMPOSE_HEAD_SIZE && (head[0] == FILTER_COMPOSITE_OR || head[0] == FILTER_COMPOSITE_AND)
    requires Decode(wl + (wr + more)).Tree? && Decode(wl + (wr + more)).f.len == |wl|
    requires Decode(wr + more).Tree?
    ensures var l, r := Decode(wl + (wr + more)).f, Decode(wr + more).f;
      var high: int := head[2];
      Decode(head + wl + wr + more) == Joined(head[0] == FILTER_COMPOSITE_AND, head[1], high * 256 + head[3], l, r)
  {
    Slices(head, wl, wr, more);
  }

  lemma Slices(head: seq<byte>, wl: seq<byte>, wr: seq<byte>, more: seq<byte>)
    requires |head| == COMPOSE_HEAD_SIZE
    ensures var buf := head + wl + wr + more;
      && buf[0] == head[0] && buf[1] == head[1] && buf[2] == head[2] && buf[3] == head[3]
      && buf[COMPOSE_HEAD_SIZE..] == wl + (wr + more)
      && buf[COMPOSE_HEAD_SIZE + |wl|..] == wr + more
  {}

  /** Nothing the decoder returns is beyond what the wire form can carry. */
  lemma {:induction false} DecodedFits(buf: seq<byte>)
    ensures Decode(buf).Tree? ==> Built(Decode(buf).f) && Fits(Decode(buf).f)
    decreases |buf|
  {
    if |buf| >= COMPOSE_HEAD_SIZE && buf[0] != FILTER_SINGLE {
      DecodedFits(buf[COMPOSE_HEAD_SIZE..]);
      var l := Decode(buf[COMPOSE_HEAD_SIZE..]);
      if l.Tree? && |buf| >= COMPOSE_HEAD_SIZE + l.f.len {
        DecodedFits(buf[COMPOSE_HEAD_SIZE + l.f.len..]);
      }
    }
  }

  /** `filter_decode`: the length given must be the length used. */
  function DecodeAll(buf: seq<byte>): Decoded {
    if buf == [] then Refused
    else
      var d := Decode(buf);
      if d.Tree? && d.f.len != |buf| then Refused else d
  }

  /** An encoded tree comes back equal exactly when the wire form can carry it. */
  lemma RoundTrip(f: Filter)
    requires Built(f)
    ensures DecodeAll(Wire(f)) == Tree(f) <==> Fits(f)
  {
    WireLength(f);
    if Fits(f) {
      FitsNearly(f);
      NarrowFits(f);
      DecodeWire(f, []);
      assert Wire(f) + [] == Wire(f);
    } else {
      DecodedFits(Wire(f));
    }
  }

  lemma {:induction false} FitsNearly(f: Filter)
    requires Fits(f)
    ensures NearlyFits(f)
  {
    if f.Compose? {
      FitsNearly(f.left);
      FitsNearly(f.right);
    }
  }

  // ----- Reading past the end -----

  /** More bytes behind the buffer change an outcome only if the decoder reads past its end. */
  lemma {:induction false} DecodeStable(buf: seq<byte>, more: seq<byte>)
    requires Decode(buf) != Overrun
    ensures Decode(buf + more) == Decode(buf)
    decreases |buf|
  {
    if buf[0] == FILTER_SINGLE {
      StableSingle(buf, more);
    } else if IsBoth(buf) {
      var l := Decode(buf[COMPOSE_HEAD_SIZE..]);
      RoomForLeft(buf);
      DecodeStable(buf[COMPOSE_HEAD_SIZE..], more);
      if l.Tree? {
        DecodeStable(buf[COMPOSE_HEAD_SIZE + l.f.len..], more);
        StableBoth(buf, more, l.f, Decode(buf[COMPOSE_HEAD_SIZE + l.f.len..]));
      } else {
        StableLeft(buf, more, l);
      }
    }
  }

  lemma RoomForLeft(buf: seq<byte>)
    requires IsBoth(buf) && Decode(buf) != Overrun
    ensures var l := Decode(buf[COMPOSE_HEAD_SIZE..]);
      && l != Overrun
      && (l.Tree? ==>
        COMPOSE_HEAD_SIZE + l.f.len <= |buf| && Decode(buf[COMPOSE_HEAD_SIZE + l.f.len..]) != Overrun)
  {}

  lemma StableLeft(buf: seq<byte>, more: seq<byte>, l: Decoded)
    requires IsBoth(buf) && !l.Tree? && Decode(buf[COMPOSE_HEAD_SIZE..]) == Decode(buf[COMPOSE_HEAD_SIZE..] + more) == l
    ensures Decode(buf + more) == Decode(buf)
  {
    Behind(buf, more, COMPOSE_HEAD_SIZE);
  }

  lemma StableBoth(buf: seq<byte>, more: seq<byte>, l: Filter, r: Decoded)
    requires IsBoth(buf) && COMPOSE_HEAD_SIZE + l.len <= |buf|
    requires Decode(buf[COMPOSE_HEAD_SIZE..]) == Decode(buf[COMPOSE_HEAD_SIZE..] + more) == Tree(l)
    requires Decode(buf[COMPOSE_HEAD_SIZE + l.len..]) == Decode(buf[COMPOSE_HEAD_SIZE + l.len..] + more) == r
    ensures Decode(buf + more) == Decode(buf)
  {
    BothIs(buf, l, r);
    Behind(buf, more, COMPOSE_HEAD_SIZE);
    Behind(buf, more, COMPOSE_HEAD_SIZE + l.len);
    BothIs(buf + more, l, r);
  }

  /** The head of a composite. */
  predicate IsBoth(buf: seq<byte>) {
    |buf| >= COMPOSE_HEAD_SIZE && (buf[0] == FILTER_COMPOSITE_OR || buf[0] == FILTER_COMPOSITE_AND)
  }

  /** What a composite decodes to, from what its children do; `room` is what is left behind its head. */
  function Both(conj: bool, non: byte, len: nat, room: nat, l: Decoded, r: Decoded): Decoded {
    if !l.Tree? then l
    else if room < l.f.len then Overrun
    else if !r.Tree? then r
    else Joined(conj, non, len, l.f, r.f)
  }

  function BothOf(buf: seq<byte>, room: nat, l: Decoded, r: Decoded): Decoded
    requires IsBoth(buf)
  {
    var high: int := buf[2];
    Both(buf[0] == FILTER_COMPOSITE_AND, buf[1], high * 256 + buf[3], room, l, r)
  }

  lemma Behind(buf: seq<byte>, more: seq<byte>, n: nat)
    requires n <= |buf|
    ensures (buf + more)[n..] == buf[n..] + more && (buf + more)[..n] == buf[..n]
  {}

  lemma StableSingle(buf: seq<byte>, more: seq<byte>)
    requires Decode(buf) != Overrun && buf[0] == FILTER_SINGLE
    ensures Decode(buf + more) == Decode(buf)
  {
    var all := buf + more;
    assert forall i :: 0 <= i < |buf| ==> all[i] == buf[i];
    assert all[8..8 + buf[7]] == buf[8..8 + buf[7]];
  }

  /** The tree is read from the bytes that its length counts and from no others, and from all of them. */
  predicate Local(buf: seq<byte>)
    requires Decode(buf).Tree?
  {
    var n := Decode(buf).f.len;
    n <= |buf| && Decode(buf[..n]) == Decode(buf) && forall k: nat :: k < n ==> Decode(buf[..k]) == Overrun
  }

  lemma {:induction false} DecodeLocal(buf: seq<byte>)
    requires Decode(buf).Tree?
    ensures Local(buf)
    decreases |buf|
  {
    if buf[0] == FILTER_SINGLE {
      LocalSingle(buf);
    } else {
      var l, r := PartsOf(buf);
      DecodeLocal(buf[COMPOSE_HEAD_SIZE..]);
      DecodeLocal(buf[COMPOSE_HEAD_SIZE + l.len..]);
      LocalBoth(buf, l, r);
    }
  }

  lemma LocalSingle(buf: seq<byte>)
    requires Decode(buf).Tree? && buf[0] == FILTER_SINGLE
    ensures Local(buf)
  {
    var n := Decode(buf).f.len;
    assert buf[..n][8..8 + buf[7]] == buf[8..8 + buf[7]];
  }

  /** What is behind the head of a composite and behind its left child decodes to the children. */
  predicate Parts(buf: seq<byte>, l: Filter, r: Filter) {
    && IsBoth(buf) && COMPOSE_HEAD_SIZE + l.len <= |buf|
    && Decode(buf[COMPOSE_HEAD_SIZE..]) == Tree(l) && Decode(buf[COMPOSE_HEAD_SIZE + l.len..]) == Tree(r)
  }

  lemma PartsOf(buf: seq<byte>) returns (l: Filter, r: Filter)
    requires Decode(buf).Tree? && buf[0] != FILTER_SINGLE
    ensures Parts(buf, l, r) && Decode(buf).f.len == COMPOSE_HEAD_SIZE + l.len + r.len
  {
    l := Decode(buf[COMPOSE_HEAD_SIZE..]).f;
    r := Decode(buf[COMPOSE_HEAD_SIZE + l.len..]).f;
  }

  lemma LocalBoth(buf: seq<byte>, l: Filter, r: Filter)
    requires Decode(buf).Tree? && Parts(buf, l, r) && Decode(buf).f.len == COMPOSE_HEAD_SIZE + l.len + r.len
    requires Local(buf[COMPOSE_HEAD_SIZE..]) && Local(buf[COMPOSE_HEAD_SIZE + l.len..])
    ensures Local(buf)
  {
    var n := Decode(buf).f.len;
    assert |buf[COMPOSE_HEAD_SIZE + l.len..]| >= r.len;
    LocalFront(buf, l, r, n);
    forall k: nat | k < n
      ensures Decode(buf[..k]) == Overrun
    {
      if COMPOSE_HEAD_SIZE <= k {
        LocalFront(buf, l, r, k);
      }
    }
  }

  lemma LocalAt(b: seq<byte>, j: nat)
    requires Decode(b).Tree? && Local(b) && j <= |b|
    ensures Decode(b[..j]) == if j < Decode(b).f.len then Overrun else Decode(b)
  {
    if j >= Decode(b).f.len {
      FrontLonger(b, Decode(b).f.len, j);
    }
  }

  /** The children of a front of a composite are read from fronts of what their trees are read from. */
  lemma LocalFront(buf: seq<byte>, l: Filter, r: Filter, k: nat)
    requires Decode(buf).Tree? && Parts(buf, l, r)
    requires COMPOSE_HEAD_SIZE <= k <= COMPOSE_HEAD_SIZE + l.len + r.len <= |buf|
    requires Local(buf[COMPOSE_HEAD_SIZE..]) && Local(buf[COMPOSE_HEAD_SIZE + l.len..])
    ensures Decode(buf[..k]) == if k < COMPOSE_HEAD_SIZE + l.len + r.len then Overrun else Decode(buf)
  {
    var n := COMPOSE_HEAD_SIZE + l.len;
    ChildAt(buf, COMPOSE_HEAD_SIZE, l, k);
    if k < n {
      FrontLeft(buf, k);
    } else {
      ChildAt(buf, n, r, k);
      LocalRight(buf, l, r, k);
    }
  }

  lemma ChildAt(buf: seq<byte>, n: nat, child: Filter, k: nat)
    requires n <= k <= |buf| && Decode(buf[n..]) == Tree(child) && Local(buf[n..])
    ensures Decode(buf[n..][..k - n]) == if k < n + child.len then Overrun else Tree(child)
  {
    LocalAt(buf[n..], k - n);
  }

  lemma LocalRight(buf: seq<byte>, l: Filter, r: Filter, k: nat)
    requires Decode(buf).Tree? && Parts(buf, l, r)
    requires COMPOSE_HEAD_SIZE + l.len <= k <= COMPOSE_HEAD_SIZE + l.len + r.len <= |buf|
    requires Decode(buf[COMPOSE_HEAD_SIZE..][..k - COMPOSE_HEAD_SIZE]) == Tree(l)
    requires var n := COMPOSE_HEAD_SIZE + l.len;
      Decode(buf[n..][..k - n]) == if k < n + r.len then Overrun else Tree(r)
    ensures Decode(buf[..k]) == if k < COMPOSE_HEAD_SIZE + l.len + r.len then Overrun else Decode(buf)
  {
    FrontRight(buf, k, l, if k < COMPOSE_HEAD_SIZE + l.len + r.len then Overrun else Tree(r));
    BothIs(buf, l, Tree(r));
    RoomEnough(buf, Decode(buf), l, r, k);
  }

  lemma RoomEnough(buf: seq<byte>, d: Decoded, l: Filter, r: Filter, k: nat)
    requires IsBoth(buf) && d.Tree? && d == BothOf(buf, |buf| - COMPOSE_HEAD_SIZE, Tree(l), Tree(r))
    requires COMPOSE_HEAD_SIZE + l.len <= k <= d.f.len
    ensures d.f.len == COMPOSE_HEAD_SIZE + l.len + r.len
    ensures BothOf(buf, k - COMPOSE_HEAD_SIZE, Tree(l), if k < d.f.len then Overrun else Tree(r)) ==
      if k < d.f.len then Overrun else d
  {}

  lemma BothIs(buf: seq<byte>, l: Filter, r: Decoded)
    requires IsBoth(buf) && COMPOSE_HEAD_SIZE + l.len <= |buf|
    requires Decode(buf[COMPOSE_HEAD_SIZE..]) == Tree(l) && Decode(buf[COMPOSE_HEAD_SIZE + l.len..]) == r
    ensures Decode(buf) == BothOf(buf, |buf| - COMPOSE_HEAD_SIZE, Tree(l), r)
  {}

  lemma FrontLeft(buf: seq<byte>, k: nat)
    requires IsBoth(buf) && COMPOSE_HEAD_SIZE <= k <= |buf|
    requires Decode(buf[COMPOSE_HEAD_SIZE..][..k - COMPOSE_HEAD_SIZE]) == Overrun
    ensures Decode(buf[..k]) == Overrun
  {
    FrontOf(buf, COMPOSE_HEAD_SIZE, k);
  }

  lemma FrontRight(buf: seq<byte>, k: nat, l: Filter, r: Decoded)
    requires IsBoth(buf) && COMPOSE_HEAD_SIZE + l.len <= k <= |buf|
    requires Decode(buf[COMPOSE_HEAD_SIZE..][..k - COMPOSE_HEAD_SIZE]) == Tree(l)
    requires Decode(buf[COMPOSE_HEAD_SIZE + l.len..][..k - COMPOSE_HEAD_SIZE - l.len]) == r
    ensures Decode(buf[..k]) == BothOf(buf, k - COMPOSE_HEAD_SIZE, Tree(l), r)
  {
    var front := buf[..k];
    assert front[COMPOSE_HEAD_SIZE..] == buf[COMPOSE_HEAD_SIZE..][..k - COMPOSE_HEAD_SIZE] by {
      FrontOf(buf, COMPOSE_HEAD_SIZE, k);
    }
    assert front[COMPOSE_HEAD_SIZE + l.len..] == buf[COMPOSE_HEAD_SIZE + l.len..][..k - COMPOSE_HEAD_SIZE - l.len] by {
      FrontOf(buf, COMPOSE_HEAD_SIZE + l.len, k);
    }
    BothIs(front, l, r);
  }

  lemma FrontOf(buf: seq<byte>, i: nat, k: nat)
    requires i <= k <= |buf|
    ensures buf[..k][i..] == buf[i..][..k - i] && buf[..k][..i] == buf[..i]
  {}

  lemma FrontLonger(b: seq<byte>, n: nat, k: nat)
    requires n <= k <= |b| && Decode(b[..n]) != Overrun
    ensures Decode(b[..k]) == Decode(b[..n])
  {
    DecodeStable(b[..n], b[n..k]);
    assert b[..n] + b[n..k] == b[..k];
  }

  /** A message cut short is read past its end exactly if it is shorter than its length field says. */
  lemma CutShort(f: Filter, k: nat)
    requires Built(f) && NearlyFits(f) && k <= |Wire(f)|
    ensures Decode(Wire(f)[..k]) == Overrun <==> k < f.len
    ensures k > 0 ==> (DecodeAll(Wire(f)[..k]) == Overrun <==> k < f.len)
  {
    DecodeWire(f, []);
    assert Wire(f) + [] == Wire(f);
    NarrowFits(f);
    WireLength(f);
    DecodeLocal(Wire(f));
    assert Wire(f)[..f.len] == Wire(f);
  }

  /** A header that announces one byte of value behind the end; the length field says so or does not. */
  lemma ReadsPastEnd()
    ensures DecodeAll([1, 0, 0, 9, 0, 0, 0, 1]) == Overrun && DecodeAll([1, 0, 0, 8, 0, 0, 0, 1]) == Overrun
  {}

  /**
    Decoding a message in a larger memory: what lies behind the message never makes a tree of one that is none, and
    the message is read past its end exactly if reading it alone would be.
   */
  lemma MemoryBehind(message: seq<byte>, behind: seq<byte>)
    requires message != []
    ensures var d := Decode(message + behind);
      && (d.Tree? && d.f.len == |message| <==> DecodeAll(message).Tree?)
      && (DecodeAll(message).Tree? ==> DecodeAll(message) == d)
      && (DecodeAll(message) == Overrun ==> !d.Tree? || d.f.len > |message|)
  {
    var all := message + behind;
    assert all[..|message|] == message;
    if Decode(message) != Overrun {
      DecodeStable(message, behind);
    }
    if Decode(all).Tree? {
      DecodeLocal(all);
      if Decode(all).f.len <= |message| {
        FrontLonger(all, Decode(all).f.len, |message|);
      }
    }
  }

  // ----- Evaluation -----

  /** A comparison: option type, operator and value; any number but 0 means true. */
  type Compare = (nat, byte, seq<byte>) -> int

  function Bool(b: bool): int {
    if b then 1 else 0
  }

  /** `filter_logic_result`. */
  function Result(f: Filter, compare: Compare): int {
    var rc :=
      match f
      case Single(_, _, optionType, op, _, value) => compare(optionType, op, value)
      case Compose(conj, _, _, l, r) =>
        if conj then Bool(Result(l, compare) != 0 && Result(r, compare) != 0)
        else Bool(Result(l, compare) != 0 || Result(r, compare) != 0);
    if f.non == 1 then Bool(rc == 0) else rc
  }

  // ----- What the answers mean -----

  /** Of a comparison, the number itself is the answer. */
  lemma LeafAnswer(f: Filter, compare: Compare)
    requires f.Single? && f.non != 1
    ensures Result(f, compare) == compare(f.optionType, f.op, f.value)
  {}

  /** AND is true exactly if both children are, OR exactly if one is; true is 1. */
  lemma CompositeAnswer(f: Filter, compare: Compare)
    requires f.Compose? && f.non != 1
    ensures Result(f, compare) == 1 || Result(f, compare) == 0
    ensures f.conj ==>
      (Result(f, compare) != 0 <==> Result(f.left, compare) != 0 && Result(f.right, compare) != 0)
    ensures !f.conj ==>
      (Result(f, compare) != 0 <==> Result(f.left, compare) != 0 || Result(f.right, compare) != 0)
  {}

  /** A negated tree is true, and then 1, exactly if the tree without the negation is not. */
  lemma NegatedAnswer(f: Filter, compare: Compare)
    requires f.non == 0
    ensures var n := Result(f.(non := 1), compare);
      (n == 1 || n == 0) && (n != 0 <==> Result(f, compare) == 0)
  {}

  /** Decoding an encoded tree changes no answer of a comparison that ignores the high octet of the option. */
  lemma {:induction false} NarrowAnswers(f: Filter, compare: Compare)
    requires forall o: nat, op: byte, v: seq<byte> :: compare(o, op, v) == compare(o % 256, op, v)
    ensures Result(Narrow(f), compare) == Result(f, compare)
  {
    if f.Compose? {
      NarrowAnswers(f.left, compare);
      NarrowAnswers(f.right, compare);
    }
  }
}
