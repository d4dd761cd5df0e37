/**
  The table-driven loops of `lch/util/algorithm.c` compute the remainders of `ChecksumDivision`.
 */
module Checksum {
  import opened ChecksumDivision
  import opened ChecksumTables

  // ----- The tables -----

  function Table(code: Code, i: bv8): bv32 {
    match code
    case Fcs16 => Fcs16Row(i >> 3).At(i & 7)
    case Fcs32 => Fcs32Row(i >> 3).At(i & 7)
    case Crc32c => Crc32cRow(i >> 3).At(i & 7)
  }

  function Rem(code: Code, c: bv32): bv32 {
    BitStep(code, BitStep(code, BitStep(code, BitStep(code,
      BitStep(code, BitStep(code, BitStep(code, BitStep(code, c))))))))
  }

  lemma Table16First(i: bv8)
    requires i < 64
    ensures Table(Fcs16, i) == Rem(Fcs16, i as bv32)
  {}

  lemma Table16Second(i: bv8)
    requires 64 <= i < 128
    ensures Table(Fcs16, i) == Rem(Fcs16, i as bv32)
  {}

  lemma Table16Third(i: bv8)
    requires 128 <= i < 192
    ensures Table(Fcs16, i) == Rem(Fcs16, i as bv32)
  {}

  lemma Table16Fourth(i: bv8)
    requires 192 <= i
    ensures Table(Fcs16, i) == Rem(Fcs16, i as bv32)
  {}

  lemma Table32First(i: bv8)
    requires i < 64
    ensures Table(Fcs32, i) == Rem(Fcs32, i as bv32)
  {}

  lemma Table32Second(i: bv8)
    requires 64 <= i < 128
    ensures Table(Fcs32, i) == Rem(Fcs32, i as bv32)
  {}

  lemma Table32Third(i: bv8)
    requires 128 <= i < 192
    ensures Table(Fcs32, i) == Rem(Fcs32, i as bv32)
  {}

  lemma Table32Fourth(i: bv8)
    requires 192 <= i
    ensures Table(Fcs32, i) == Rem(Fcs32, i as bv32)
  {}

  lemma TableCFirst(i: bv8)
    requires i < 64
    ensures Table(Crc32c, i) == Rem(Crc32c, i as bv32)
  {}

  lemma TableCSecond(i: bv8)
    requires 64 <= i < 128
    ensures Table(Crc32c, i) == Rem(Crc32c, i as bv32)
  {}

  lemma TableCThird(i: bv8)
    requires 128 <= i < 192
    ensures Table(Crc32c, i) == Rem(Crc32c, i as bv32)
  {}

  lemma TableCFourth(i: bv8)
    requires 192 <= i
    ensures Table(Crc32c, i) == Rem(Crc32c, i as bv32)
  {}

  /** Every entry of a table is what its index leaves after eight steps. */
  lemma TableEntry(code: Code, i: bv8)
    ensures Table(code, i) == Rem(code, i as bv32)
  {
    match code
    case Fcs16 =>
      if i < 64 {
        Table16First(i);
      } else if i < 128 {
        Table16Second(i);
      } else if i < 192 {
        Table16Third(i);
      } else {
        Table16Fourth(i);
      }
    case Fcs32 =>
      if i < 64 {
        Table32First(i);
      } else if i < 128 {
        Table32Second(i);
      } else if i < 192 {
        Table32Third(i);
      } else {
        Table32Fourth(i);
      }
    case Crc32c =>
      if i < 64 {
        TableCFirst(i);
      } else if i < 128 {
        TableCSecond(i);
      } else if i < 192 {
        TableCThird(i);
      } else {
        TableCFourth(i);
      }
  }

  // ----- A table step divides eight bits in at once -----

  function Xor(x: bv32, y: bv32): bv32 {
    x ^ y
  }

  function Steps(code: Code, c: bv32, k: nat): bv32
    decreases k
  {
    if k == 0 then c else Steps(code, BitStep(code, c), k - 1)
  }

  /** A word after `k` shifts. */
  function Shr(h: bv32, k: nat): bv32
    decreases k
  {
    if k == 0 then h else Shr(Half(h), k - 1)
  }

  /** The `k` low bits are clear. */
  predicate Clear(h: bv32, k: nat)
    decreases k
  {
    k > 0 ==> h & 1 == 0 && Clear(Half(h), k - 1)
  }

  lemma XorShifts(h: bv32, x: bv32)
    ensures Half(Xor(h, x)) == Xor(Half(h), Half(x))
  {}

  lemma XorAssoc(h: bv32, x: bv32, p: bv32)
    ensures Xor(Xor(h, x), p) == Xor(h, Xor(x, p))
  {}

  lemma OddStep(code: Code, x: bv32)
    requires x & 1 == 1
    ensures BitStep(code, x) == Xor(Half(x), Poly(code))
  {}

  lemma EvenStep(code: Code, x: bv32)
    requires x & 1 != 1
    ensures BitStep(code, x) == Half(x)
  {}

  /** A step adds up: a part whose low bit is clear is only shifted. */
  lemma StepAdds(code: Code, h: bv32, x: bv32)
    requires h & 1 == 0
    ensures BitStep(code, Xor(h, x)) == Xor(Half(h), BitStep(code, x))
  {
    XorShifts(h, x);
    XorAssoc(Half(h), Half(x), Poly(code));
    if x & 1 == 1 {
      OddStep(code, x);
      OddStep(code, Xor(h, x));
    } else {
      EvenStep(code, x);
      EvenStep(code, Xor(h, x));
    }
  }

  lemma {:induction false} StepsAdd(code: Code, h: bv32, x: bv32, k: nat)
    requires Clear(h, k)
    ensures Steps(code, Xor(h, x), k) == Xor(Shr(h, k), Steps(code, x, k))
    decreases k
  {
    if k > 0 {
      StepAdds(code, h, x);
      StepsAdd(code, Half(h), BitStep(code, x), k - 1);
    }
  }

  function SetLow(c: bv32, bit: bool): bv32 {
    if bit then c ^ 1 else c
  }

  function Upper(b: bv32): bv32 {
    b & 0xfffffffe
  }

  lemma BitEnters(code: Code, c: bv32, b: bv32)
    ensures Xor(Half(b), Enter(code, c, b & 1 == 1)) == BitStep(code, Xor(b, c))
  {
    LowBitApart(b, c);
    StepAdds(code, Upper(b), SetLow(c, b & 1 == 1));
  }

  lemma LowBitApart(b: bv32, c: bv32)
    ensures Upper(b) & 1 == 0 && Half(Upper(b)) == Half(b)
    ensures Xor(b, c) == Xor(Upper(b), SetLow(c, b & 1 == 1))
  {}

  /** Dividing bits in one by one is adding them all and then dividing. */
  lemma {:induction false} BitsEnter(code: Code, c: bv32, w: bv32, k: nat)
    ensures Xor(Shr(w, k), Divide(code, c, LowBits(w, k))) == Steps(code, Xor(w, c), k)
    decreases k
  {
    if k > 0 {
      BitEnters(code, c, w);
      BitsEnter(code, Enter(code, c, w & 1 == 1), Half(w), k - 1);
      assert LowBits(w, k)[1..] == LowBits(Half(w), k - 1);
    }
  }

  lemma EightShifts(h: bv32)
    ensures Shr(h, 8) == h >> 8
  {
    var h2 := Half(Half(h));
    assert Shr(h, 8) == Shr(h2, 6);
    var h4 := Half(Half(h2));
    assert Shr(h2, 6) == Shr(h4, 4);
    var h6 := Half(Half(h4));
    assert Shr(h4, 4) == Shr(h6, 2);
    assert Shr(h6, 2) == Shr(Half(Half(h6)), 0);
  }

  lemma ByteClear(h: bv32)
    requires h & 0xff == 0
    ensures Clear(h, 8)
  {
    assert Clear(h >> 4, 4);
  }

  lemma EightSteps(code: Code, c: bv32)
    ensures Steps(code, c, 8) == Rem(code, c)
  {
    var c2 := BitStep(code, BitStep(code, c));
    assert Steps(code, c, 8) == Steps(code, c2, 6);
    var c4 := BitStep(code, BitStep(code, c2));
    assert Steps(code, c2, 6) == Steps(code, c4, 4);
    var c6 := BitStep(code, BitStep(code, c4));
    assert Steps(code, c4, 4) == Steps(code, c6, 2);
    assert Steps(code, c6, 2) == Steps(code, BitStep(code, BitStep(code, c6)), 0);
  }

  function LowByte(x: bv32): bv8 {
    (x & 0xff) as bv8
  }

  function UpperBytes(x: bv32): bv32 {
    x & 0xffffff00
  }

  function Rest(x: bv32): bv32 {
    x >> 8
  }

  lemma StepsSplit(code: Code, x: bv32)
    ensures Steps(code, x, 8) == Xor(Rest(x), Steps(code, Byte(LowByte(x)), 8))
  {
    Parts(x);
    ByteClear(UpperBytes(x));
    EightShifts(UpperBytes(x));
    StepsAdd(code, UpperBytes(x), Byte(LowByte(x)), 8);
  }

  lemma Parts(x: bv32)
    ensures x == Xor(UpperBytes(x), Byte(LowByte(x)))
    ensures UpperBytes(x) & 0xff == 0
    ensures UpperBytes(x) >> 8 == Rest(x)
  {}

  lemma ByteSelects(c: bv32, b: bv8)
    ensures LowByte(Xor(c, Byte(b))) == LowByte(Xor(Byte(b), c))
    ensures Rest(Xor(Byte(b), c)) == Rest(c)
    ensures Byte(b) >> 8 == 0
  {}

  method Entry(code: Code, i: bv8) returns (e: bv32)
    ensures e == Steps(code, Byte(i), 8)
  {
    e := Table(code, i);
    TableEntry(code, i);
    EightSteps(code, i as bv32);
  }

  lemma StepDivides(code: Code, c: bv32, b: bv8)
    ensures Xor(Rest(c), Steps(code, Byte(LowByte(Xor(c, Byte(b)))), 8)) == Divide(code, c, LowBits(Byte(b), 8))
  {
    ByteSelects(c, b);
    StepsSplit(code, Xor(Byte(b), c));
    BitsEnter(code, c, Byte(b), 8);
    EightShifts(Byte(b));
    XorZero(Divide(code, c, LowBits(Byte(b), 8)));
  }

  lemma XorZero(d: bv32)
    ensures Xor(0, d) == d
  {}
  // ----- The three functions -----

  /** One round of the loops: the register after one more byte. */
  method Round(code: Code, c: bv32, b: bv8) returns (r: bv32)
    ensures r == Divide(code, c, LowBits(Byte(b), 8))
  {
    var e := Entry(code, LowByte(Xor(c, Byte(b))));
    StepDivides(code, c, b);
    r := Xor(Rest(c), e);
  }

  lemma OneMoreByte(code: Code, data: seq<bv8>, k: nat)
    requires k < |data|
    ensures Remainder(code, data[..k + 1]) == Divide(code, Remainder(code, data[..k]), LowBits(Byte(data[k]), 8))
  {
    assert data[..k + 1][..k] == data[..k];
    DivideConcat(code, Full(code), Bits(data[..k]), LowBits(Byte(data[k]), 8));
  }

  lemma Narrow(r: bv32)
    requires r & 0xffff0000 == 0
    ensures r <= 0xffff
  {}

  lemma NarrowBack(r: bv32)
    requires r <= 0xffff
    ensures r as bv16 as bv32 == r
  {}

  /** The four bytes of a word in the opposite order. */
  function Reversed(x: bv32): bv32 {
    ((x & 0xff) << 24) | (((x >> 8) & 0xff) << 16) | (((x >> 16) & 0xff) << 8) | ((x >> 24) & 0xff)
  }

  function Complement(x: bv32): bv32 {
    x ^ 0xffffffff
  }

  /** What the function for the code returns: crc32c complements the remainder and swaps its bytes. */
  function Returned(code: Code, data: seq<bv8>): bv32 {
    if code == Crc32c then Reversed(Complement(Remainder(code, data))) else Remainder(code, data)
  }

  method Fcs16Of(data: seq<bv8>) returns (fcs: bv16)
    ensures fcs as bv32 == Returned(Fcs16, data)
  {
    fcs := 0xffff;
    var k := 0;
    while |data| - k != 0
      invariant 0 <= k <= |data|
      invariant fcs as bv32 == Remainder(Fcs16, data[..k])
    {
      var r := Round(Fcs16, fcs as bv32, data[k]);
      OneMoreByte(Fcs16, data, k);
      DivideFits(Fcs16, Full(Fcs16), Bits(data[..k + 1]));
      Narrow(r);
      NarrowBack(r);
      fcs := r as bv16;
      k := k + 1;
    }
    assert data[..k] == data;
  }

  method Fcs32Of(data: seq<bv8>) returns (fcs: bv32)
    ensures fcs == Returned(Fcs32, data)
  {
    fcs := 0xffffffff;
    var k := 0;
    while |data| - k != 0
      invariant 0 <= k <= |data|
      invariant fcs == Remainder(Fcs32, data[..k])
    {
      OneMoreByte(Fcs32, data, k);
      fcs := Round(Fcs32, fcs, data[k]);
      k := k + 1;
    }
    assert data[..k] == data;
  }

  method Swap(crc: bv32) returns (swapped: bv32)
    ensures swapped == Reversed(crc)
  {
    var byte0, byte1, byte2, byte3 := crc & 0xff, (crc >> 8) & 0xff, (crc >> 16) & 0xff, (crc >> 24) & 0xff;
    byte0, byte3 := byte3, byte0;
    byte1, byte2 := byte2, byte1;
    swapped := (byte3 << 24) | (byte2 << 16) | (byte1 << 8) | byte0;
  }

  method Crc32cOf(data: seq<bv8>) returns (crc: bv32)
    ensures crc == Returned(Crc32c, data)
  {
    crc := 0xffffffff;
    var i := 0;
    while i < |data|
      invariant 0 <= i <= |data|
      invariant crc == Remainder(Crc32c, data[..i])
    {
      OneMoreByte(Crc32c, data, i);
      crc := Round(Crc32c, crc, data[i]);
      i := i + 1;
    }
    assert data[..i] == data;
    crc := Swap(Complement(crc));
  }

  /** What is returned: the remainder, for crc32c each byte complemented and the last one first. */
  lemma ReturnedBytes(data: seq<bv8>)
    ensures Returned(Fcs16, data) == Remainder(Fcs16, data) && Returned(Fcs32, data) == Remainder(Fcs32, data)
    ensures var r, s := Remainder(Crc32c, data), Returned(Crc32c, data);
      && s >> 24 == (r & 0xff) ^ 0xff && (s >> 16) & 0xff == ((r >> 8) & 0xff) ^ 0xff
      && (s >> 8) & 0xff == ((r >> 16) & 0xff) ^ 0xff && s & 0xff == (r >> 24) ^ 0xff
  {}

  // ----- What the checksums promise about messages -----

  lemma ReversedBack(x: bv32)
    ensures Reversed(Complement(Reversed(Complement(x)))) == x
  {}

  lemma ReturnedTells(code: Code, d: seq<bv8>, e: seq<bv8>)
    ensures Returned(code, d) == Returned(code, e) <==> Remainder(code, d) == Remainder(code, e)
  {
    ReversedBack(Remainder(code, d));
    ReversedBack(Remainder(code, e));
  }

  lemma {:induction false} LowBitsLength(w: bv32, k: nat)
    ensures |LowBits(w, k)| == k
  {
    if k > 0 {
      LowBitsLength(Half(w), k - 1);
    }
  }

  lemma {:induction false} BitsLength(data: seq<bv8>)
    ensures |Bits(data)| == 8 * |data|
  {
    if data != [] {
      BitsLength(data[..|data| - 1]);
      LowBitsLength(Byte(data[|data| - 1]), 8);
    }
  }

  lemma BitsSnoc(d: seq<bv8>, b: bv8)
    ensures Bits(d + [b]) == Bits(d) + LowBits(Byte(b), 8)
  {
    assert (d + [b])[..|d|] == d;
  }

  lemma BitsConcatStep(d: seq<bv8>, front: seq<bv8>, last: bv8)
    requires Bits(d + front) == Bits(d) + Bits(front)
    ensures Bits(d + front + [last]) == Bits(d) + Bits(front + [last])
  {
    BitsSnoc(d + front, last);
    BitsSnoc(front, last);
    Regroup(Bits(d), Bits(front), LowBits(Byte(last), 8));
  }

  lemma {:induction false} BitsConcat(d: seq<bv8>, e: seq<bv8>)
    ensures Bits(d + e) == Bits(d) + Bits(e)
    decreases |e|
  {
    if e == [] {
      assert d + e == d;
    } else {
      var front, last := e[..|e| - 1], e[|e| - 1];
      BitsConcat(d, front);
      BitsConcatStep(d, front, last);
      SnocBytes(d, e);
    }
  }

  lemma SnocBytes(d: seq<bv8>, e: seq<bv8>)
    requires e != []
    ensures e[..|e| - 1] + [e[|e| - 1]] == e
    ensures d + e[..|e| - 1] + [e[|e| - 1]] == d + e
  {}

  lemma Regroup(x: seq<bool>, y: seq<bool>, z: seq<bool>)
    ensures x + y + z == x + (y + z)
  {}

  /** Eight bits name their byte. */
  lemma LowBitsDiffer(b: bv8, c: bv8)
    requires LowBits(Byte(b), 8) == LowBits(Byte(c), 8)
    ensures b == c
  {
    LowBitsSame(Byte(b), Byte(c), 8);
    ClearByte(Xor(Byte(b), Byte(c)));
    BytesEqual(b, c);
  }

  lemma BytesEqual(b: bv8, c: bv8)
    requires Xor(Byte(b), Byte(c)) & 0xff == 0
    ensures b == c
  {}

  lemma XorHalves(u: bv32, v: bv32)
    ensures Half(Xor(u, v)) == Xor(Half(u), Half(v))
    ensures Xor(u, v) & 1 == 0 <==> (u & 1 == 1) == (v & 1 == 1)
  {}

  lemma {:induction false} LowBitsSame(u: bv32, v: bv32, k: nat)
    ensures LowBits(u, k) == LowBits(v, k) <==> Clear(Xor(u, v), k)
    decreases k
  {
    if k > 0 {
      XorHalves(u, v);
      LowBitsSame(Half(u), Half(v), k - 1);
      assert LowBits(u, k)[1..] == LowBits(Half(u), k - 1);
      assert LowBits(v, k)[1..] == LowBits(Half(v), k - 1);
      assert LowBits(u, k)[0] == (u & 1 == 1) && LowBits(v, k)[0] == (v & 1 == 1);
      if LowBits(Half(u), k - 1) == LowBits(Half(v), k - 1) && (u & 1 == 1) == (v & 1 == 1) {
        assert LowBits(u, k) == LowBits(v, k);
      }
    }
  }

  lemma ClearByte(h: bv32)
    requires Clear(h, 8)
    ensures h & 0xff == 0
  {
    assert Clear(h >> 4, 4);
  }

  lemma BitsCut(d: seq<bv8>)
    requires d != []
    ensures var n := |d| - 1;
      |Bits(d)| == 8 * n + 8 && Bits(d)[..8 * n] == Bits(d[..n]) && Bits(d)[8 * n..] == LowBits(Byte(d[n]), 8)
  {
    BitsLength(d);
    BitsLength(d[..|d| - 1]);
  }

  lemma SameEnds(d: seq<bv8>, e: seq<bv8>)
    requires |d| == |e| > 0 && d[..|d| - 1] == e[..|e| - 1] && d[|d| - 1] == e[|e| - 1]
    ensures d == e
  {
    assert d == d[..|d| - 1] + [d[|d| - 1]];
    assert e == e[..|e| - 1] + [e[|e| - 1]];
  }

  lemma {:induction false} BitsInjective(d: seq<bv8>, e: seq<bv8>)
    requires Bits(d) == Bits(e)
    ensures d == e
    decreases |d|
  {
    BitsLength(d);
    BitsLength(e);
    if d != [] {
      var n := |d| - 1;
      BitsCut(d);
      BitsCut(e);
      BitsInjective(d[..n], e[..n]);
      LowBitsDiffer(d[n], e[n]);
      SameEnds(d, e);
    }
  }

  /** Two strings of bits are the same outside `n` places from `a` on. */
  predicate SameOutside(x: seq<bool>, y: seq<bool>, a: nat, n: nat) {
    |x| == |y| && forall i :: 0 <= i < |x| && !(a <= i < a + n) ==> x[i] == y[i]
  }

  lemma Window(x: seq<bool>, y: seq<bool>, a: nat, n: nat) returns (lo: nat, hi: nat)
    requires SameOutside(x, y, a, n)
    ensures lo <= hi <= |x| && hi - lo <= n
    ensures x == x[..lo] + x[lo..hi] + x[hi..]
    ensures y == x[..lo] + y[lo..hi] + x[hi..]
  {
    lo := if a <= |x| then a else |x|;
    hi := if lo + n <= |x| then lo + n else |x|;
    assert y[..lo] == x[..lo] && y[hi..] == x[hi..];
    assert y == y[..lo] + y[lo..hi] + y[hi..];
  }

  /**
    Two messages of one length that differ only inside a window of 16 adjacent bits (fcs16) or 32
    (fcs32, crc32c), wherever the window starts, share their checksum only if they are the same.
   */
  lemma BurstsDetected(code: Code, d: seq<bv8>, e: seq<bv8>, a: nat)
    requires SameOutside(Bits(d), Bits(e), a, Width(code))
    ensures Returned(code, d) == Returned(code, e) <==> d == e
  {
    ReturnedTells(code, d, e);
    if Remainder(code, d) == Remainder(code, e) {
      var x, y := Bits(d), Bits(e);
      var lo, hi := Window(x, y, a, Width(code));
      BurstDetected(code, x[..lo], x[lo..hi], y[lo..hi], x[hi..]);
      BitsInjective(d, e);
    }
  }

  /** The same, counted in bytes: two bytes (fcs16) or four (fcs32, crc32c) at any place of the message. */
  lemma ByteBurstsDetected(code: Code, before: seq<bv8>, x: seq<bv8>, y: seq<bv8>, after: seq<bv8>)
    requires |x| == |y| && 8 * |x| <= Width(code)
    ensures Returned(code, before + x + after) == Returned(code, before + y + after) <==> x == y
  {
    var d, e := before + x + after, before + y + after;
    ReturnedTells(code, d, e);
    if Remainder(code, d) == Remainder(code, e) {
      BitsConcat(before + x, after);
      BitsConcat(before, x);
      BitsConcat(before + y, after);
      BitsConcat(before, y);
      BitsLength(x);
      BitsLength(y);
      BurstDetected(code, Bits(before), Bits(x), Bits(y), Bits(after));
      BitsInjective(x, y);
    }
  }

  /** An odd number of wrong bits never goes unseen by fcs16 and crc32c. */
  lemma OddErrorsSeen(code: Code, d: seq<bv8>, e: seq<bv8>)
    requires code != Fcs32 && |d| == |e|
    requires |Bits(d)| == |Bits(e)| ==> OddDifference(Bits(d), Bits(e))
    ensures Returned(code, d) != Returned(code, e)
  {
    BitsLength(d);
    BitsLength(e);
    ReturnedTells(code, d, e);
    OddErrorsDetected(code, Bits(d), Bits(e));
  }

  // ----- The residue: a message followed by its check sequence leaves a constant -----

  /** What a receiver finds after the message and a correct check sequence. */
  function Good(code: Code): bv32 {
    if code == Fcs16 then 0xf0b8 else 0xdebb20e3
  }

  /** The complemented remainder as it is sent, lowest byte first. */
  function CheckBytes(code: Code, data: seq<bv8>): seq<bv8> {
    var w := Complement(Remainder(code, data));
    if code == Fcs16 then [LowByte(w), LowByte(Rest(w))]
    else [LowByte(w), LowByte(Rest(w)), LowByte(Rest(Rest(w))), LowByte(Rest(Rest(Rest(w))))]
  }

  lemma {:induction false} LowBitsJoin(w: bv32, j: nat, k: nat)
    ensures LowBits(w, j + k) == LowBits(w, j) + LowBits(Shr(w, j), k)
    decreases j
  {
    if j > 0 {
      LowBitsJoin(Half(w), j - 1, k);
    }
  }

  lemma OneByteOf(w: bv32)
    ensures LowBits(Byte(LowByte(w)), 8) == LowBits(w, 8)
  {
    ByteOff(w);
    ByteClear(Xor(Byte(LowByte(w)), w));
    LowBitsSame(Byte(LowByte(w)), w, 8);
  }

  lemma ByteOff(w: bv32)
    ensures Xor(Byte(LowByte(w)), w) & 0xff == 0
  {}

  lemma BytesOf(w: bv32, k: nat)
    ensures LowBits(w, 8 + k) == LowBits(Byte(LowByte(w)), 8) + LowBits(Rest(w), k)
  {
    LowBitsJoin(w, 8, k);
    EightShifts(w);
    OneByteOf(w);
  }

  lemma {:induction false} StepsJoin(code: Code, c: bv32, j: nat, k: nat)
    ensures Steps(code, c, j + k) == Steps(code, Steps(code, c, j), k)
    decreases j
  {
    if j > 0 {
      StepsJoin(code, BitStep(code, c), j - 1, k);
    }
  }

  /** All the check bytes together are the bits of the complemented remainder. */
  lemma CheckBits(code: Code, data: seq<bv8>)
    requires code != Crc32c
    ensures Bits(CheckBytes(code, data)) == LowBits(Complement(Remainder(code, data)), Width(code))
  {
    var w := Complement(Remainder(code, data));
    if code == Fcs16 {
      TwoBytes(w);
    } else {
      FourBytes(w);
    }
  }

  lemma BitsOfTwo(b: bv8, c: bv8)
    ensures Bits([b, c]) == LowBits(Byte(b), 8) + LowBits(Byte(c), 8)
  {
    assert [] + [b] == [b] && [b] + [c] == [b, c];
    BitsSnoc([], b);
    BitsSnoc([b], c);
  }

  lemma TwoBytes(w: bv32)
    ensures Bits([LowByte(w), LowByte(Rest(w))]) == LowBits(w, 16)
  {
    BitsOfTwo(LowByte(w), LowByte(Rest(w)));
    BytesOf(w, 8);
    OneByteOf(Rest(w));
  }

  lemma FourBytes(w: bv32)
    ensures Bits([LowByte(w), LowByte(Rest(w)), LowByte(Rest(Rest(w))), LowByte(Rest(Rest(Rest(w))))])
         == LowBits(w, 32)
  {
    var v := Rest(Rest(w));
    TwoBytes(w);
    TwoBytes(v);
    BitsConcat([LowByte(w), LowByte(Rest(w))], [LowByte(v), LowByte(Rest(v))]);
    assert [LowByte(w), LowByte(Rest(w))] + [LowByte(v), LowByte(Rest(v))]
        == [LowByte(w), LowByte(Rest(w)), LowByte(v), LowByte(Rest(v))];
    LowBitsJoin(w, 16, 16);
    TwoRests(w);
  }

  lemma TwoRests(w: bv32)
    ensures Shr(w, 16) == Rest(Rest(w))
  {
    ShrJoin(w, 8, 8);
    EightShifts(w);
    EightShifts(Rest(w));
  }

  lemma {:induction false} ShrJoin(w: bv32, j: nat, k: nat)
    ensures Shr(w, j + k) == Shr(Shr(w, j), k)
    decreases j
  {
    if j > 0 {
      ShrJoin(Half(w), j - 1, k);
    }
  }

  lemma TwoRounds(code: Code, c: bv32)
    ensures Steps(code, c, 16) == Rem(code, Rem(code, c))
  {
    StepsJoin(code, c, 8, 8);
    EightSteps(code, c);
    EightSteps(code, Rem(code, c));
  }

  lemma Cancel16(c: bv32, d: bv32)
    requires c & 0xffff0000 == 0
    requires Xor(Rest(Rest(Complement(c))), d) == Rem(Fcs16, Rem(Fcs16, Xor(Complement(c), c)))
    ensures d == 0xf0b8
  {}

  lemma Cancel32(c: bv32, d: bv32)
    requires Xor(Rest(Rest(Rest(Rest(Complement(c))))), d)
          == Rem(Fcs32, Rem(Fcs32, Rem(Fcs32, Rem(Fcs32, Xor(Complement(c), c)))))
    ensures d == 0xdebb20e3
  {}

  /** The remainder and its complement cancel: what is left does not depend on the message. */
  lemma CancelsOut(code: Code, c: bv32)
    requires code != Crc32c && Fits(code, c)
    ensures Divide(code, c, LowBits(Complement(c), Width(code))) == Good(code)
  {
    var w := Complement(c);
    var x := Xor(w, c);
    BitsEnter(code, c, w, Width(code));
    TwoRounds(code, x);
    TwoRests(w);
    if code == Fcs16 {
      Cancel16(c, Divide(code, c, LowBits(w, 16)));
    } else {
      ShrJoin(w, 16, 16);
      TwoRests(Rest(Rest(w)));
      StepsJoin(code, x, 16, 16);
      TwoRounds(code, Steps(code, x, 16));
      Cancel32(c, Divide(code, c, LowBits(w, 32)));
    }
  }

  /**
    The receiver's test is exact: message and trailing bytes together leave the constant if and only if
    the bytes are the complemented check sequence of the message, lowest first.
   */
  lemma GoodExactly(code: Code, data: seq<bv8>, tail: seq<bv8>)
    requires code != Crc32c && 8 * |tail| == Width(code)
    ensures Remainder(code, data + tail) == Good(code) <==> tail == CheckBytes(code, data)
  {
    AfterTail(code, data, tail);
    DivideFits(code, Full(code), Bits(data));
    TailExactly(code, data, tail);
  }

  lemma AfterTail(code: Code, data: seq<bv8>, tail: seq<bv8>)
    ensures Remainder(code, data + tail) == Divide(code, Remainder(code, data), Bits(tail))
  {
    BitsConcat(data, tail);
    DivideConcat(code, Full(code), Bits(data), Bits(tail));
  }

  lemma TailExactly(code: Code, data: seq<bv8>, tail: seq<bv8>)
    requires code != Crc32c && 8 * |tail| == Width(code) && Fits(code, Remainder(code, data))
    ensures Divide(code, Remainder(code, data), Bits(tail)) == Good(code) <==> tail == CheckBytes(code, data)
  {
    CheckBits(code, data);
    CancelsOut(code, Remainder(code, data));
    if Divide(code, Remainder(code, data), Bits(tail)) == Good(code) {
      BitsLength(tail);
      BitsLength(CheckBytes(code, data));
      BurstStart(code, Remainder(code, data), Bits(tail), Bits(CheckBytes(code, data)));
      BitsInjective(tail, CheckBytes(code, data));
    }
  }
}
