/**
  Bit fields cut out of byte strings (`lch/util/misc.c`).  Bits are written most significant first; masks and
  shifts of the program are the remainders and quotients by powers of two that they stand for.
 */
module BitFields {
  import opened Arithmetic

  type byte = b: int | 0 <= b < 256

  const WORD := 0x1_0000_0000

  lemma {:induction false} Pow2Grows(m: nat, n: nat)
    requires m <= n
    ensures Pow2(m) <= Pow2(n)
    decreases n
  {
    if m < n {
      Pow2Grows(m, n - 1);
    }
  }

  lemma Pow2Small()
    ensures Pow2(1) == 2 && Pow2(2) == 4 && Pow2(3) == 8 && Pow2(4) == 16
    ensures Pow2(5) == 32 && Pow2(6) == 64 && Pow2(7) == 128 && Pow2(8) == 256
  {
    assert Pow2(4) == 16;
    assert Pow2(6) == 64;
  }

  lemma Pow2Word()
    ensures Pow2(32) == WORD
  {
    Pow2Small();
    Pow2Join(8, 8);
    Pow2Join(16, 16);
  }

  // ----- Numbers and their bits -----

  /** The number whose bits these are, the most significant first. */
  function Value(bits: seq<bool>): nat {
    if bits == [] then 0 else 2 * Value(bits[..|bits| - 1]) + (if bits[|bits| - 1] then 1 else 0)
  }

  /** The `n` low bits of a number. */
  function BitsOf(v: nat, n: nat): (bits: seq<bool>)
    ensures |bits| == n
  {
    if n == 0 then [] else BitsOf(v / 2, n - 1) + [v % 2 == 1]
  }

  function DataBits(data: seq<byte>): (bits: seq<bool>)
    ensures |bits| == 8 * |data|
  {
    if data == [] then [] else DataBits(data[..|data| - 1]) + BitsOf(data[|data| - 1], 8)
  }

  lemma {:induction false} ValueBound(bits: seq<bool>)
    ensures Value(bits) < Pow2(|bits|)
    decreases |bits|
  {
    if bits != [] {
      ValueBound(bits[..|bits| - 1]);
    }
  }

  lemma {:induction false} ValueJoin(a: seq<bool>, b: seq<bool>)
    ensures Value(a + b) == Value(a) * Pow2(|b|) + Value(b)
    decreases |b|
  {
    if b == [] {
      assert a + b == a;
    } else {
      var front := b[..|b| - 1];
      assert (a + b)[..|a + b| - 1] == a + front;
      ValueJoin(a, front);
      Double(Value(a), Pow2(|front|), Value(front));
    }
  }

  lemma Double(x: nat, p: nat, y: nat)
    ensures 2 * (x * p + y) == x * (2 * p) + 2 * y
  {}

  /** Cutting bits off the end divides, cutting them off the front takes the remainder. */
  lemma ValueCut(s: seq<bool>, k: nat)
    requires k <= |s|
    ensures Value(s[..k]) == Value(s) / Pow2(|s| - k)
    ensures Value(s[k..]) == Value(s) % Pow2(|s| - k)
  {
    assert s == s[..k] + s[k..];
    ValueJoin(s[..k], s[k..]);
    ValueBound(s[k..]);
    DivMod(Value(s), Value(s[..k]), Pow2(|s| - k), Value(s[k..]));
  }

  lemma {:induction false} BitsValue(v: nat, n: nat)
    ensures Value(BitsOf(v, n)) == v % Pow2(n)
    decreases n
  {
    if n > 0 {
      BitsValue(v / 2, n - 1);
      var bits := BitsOf(v, n);
      assert bits[..n - 1] == BitsOf(v / 2, n - 1);
      HalfMod(v, Pow2(n - 1));
    }
  }

  lemma HalfMod(v: nat, p: nat)
    requires p > 0
    ensures v % (2 * p) == 2 * (v / 2 % p) + v % 2
  {
    var q, r := v / 2 / p, v / 2 % p;
    assert v / 2 == q * p + r;
    assert v == q * (2 * p) + (2 * r + v % 2);
    DivMod(v, q, 2 * p, 2 * r + v % 2);
  }

  lemma ByteValue(b: byte)
    ensures Value(BitsOf(b, 8)) == b
  {
    Pow2Small();
    BitsValue(b, 8);
  }

  /** The middle of a byte: mask off above, shift off below. */
  lemma ByteField(b: byte, i: nat, j: nat)
    requires i <= j <= 8
    ensures Value(BitsOf(b, 8)[i..j]) == b % Pow2(8 - i) / Pow2(8 - j)
  {
    var s := BitsOf(b, 8);
    ByteValue(b);
    ValueCut(s, i);
    ValueCut(s[i..], j - i);
    assert s[i..][..j - i] == s[i..j];
  }

  lemma {:induction false} DataJoin(a: seq<byte>, b: seq<byte>)
    ensures DataBits(a + b) == DataBits(a) + DataBits(b)
    decreases |b|
  {
    if b == [] {
      assert a + b == a;
    } else {
      FrontJoin(a, b);
      DataJoin(a, b[..|b| - 1]);
      JoinThree(DataBits(a), DataBits(b[..|b| - 1]), BitsOf(b[|b| - 1], 8));
    }
  }

  lemma FrontJoin<T>(a: seq<T>, b: seq<T>)
    requires b != []
    ensures a + b != [] && (a + b)[..|a + b| - 1] == a + b[..|b| - 1] && (a + b)[|a + b| - 1] == b[|b| - 1]
  {}

  lemma MiddleJoin<T>(a: seq<T>, b: seq<T>, c: seq<T>)
    ensures (a + b + c)[|a|..|a| + |b|] == b
  {}

  lemma SliceOf<T>(s: seq<T>, i: nat, j: nat, k: nat, l: nat)
    requires k <= l && i + l <= j <= |s|
    ensures s[i..j][k..l] == s[i + k..i + l]
  {
    var a, b := s[i..j][k..l], s[i + k..i + l];
    forall x: nat | x < l - k
      ensures a[x] == b[x]
    {
      assert a[x] == s[i..j][k + x];
    }
  }

  lemma OneByte(b: byte)
    ensures DataBits([b]) == BitsOf(b, 8)
  {
    var data := [b];
    assert data != [] && data[..|data| - 1] == [] && data[|data| - 1] == b;
    assert DataBits(data) == DataBits([]) + BitsOf(b, 8);
    assert DataBits([]) == [];
  }

  lemma JoinThree<T>(a: seq<T>, b: seq<T>, c: seq<T>)
    ensures a + b + c == a + (b + c)
  {}

  lemma CutAt<T>(s: seq<T>, k: nat)
    requires k < |s|
    ensures s == s[..k] + [s[k]] + s[k + 1..]
  {}

  /** The bits of the byte at place `k`. */
  lemma DataByte(data: seq<byte>, k: nat)
    requires k < |data|
    ensures DataBits(data)[8 * k..8 * k + 8] == BitsOf(data[k], 8)
  {
    CutAt(data, k);
    DataJoin(data[..k] + [data[k]], data[k + 1..]);
    DataJoin(data[..k], [data[k]]);
    OneByte(data[k]);
    MiddleJoin(DataBits(data[..k]), BitsOf(data[k], 8), DataBits(data[k + 1..]));
  }

  // ----- Big-endian fields -----

  /** `(vi << n) | v` in an unsigned word, for `v` of `n` bits. */
  function ShiftIn(vi: nat, n: nat, v: nat): nat {
    vi * Pow2(n) % WORD + v
  }

  /** The bits from bit `sbit` of byte `sbyte` on; 8 is the most significant bit of a byte and 1 the least. */
  function FieldBits(data: seq<byte>, sbyte: nat, sbit: nat, bits: nat): (r: seq<bool>)
    requires 1 <= sbit <= 8 && 8 * sbyte + 8 - sbit + bits <= 8 * |data|
    ensures |r| == bits
  {
    DataBits(data)[8 * sbyte + 8 - sbit..8 * sbyte + 8 - sbit + bits]
  }

  /** The field read so far, and where reading stands. */
  predicate Reading(data: seq<byte>, field: seq<bool>, d: nat, at: nat, sbit: nat) {
    && 1 <= sbit <= 8 && d <= |field| && 8 * at + 8 - sbit + |field| - d <= 8 * |data|
    && field[d..] == FieldBits(data, at, sbit, |field| - d)
  }

  /** The bits read so far as a number; only the first byte may be read from its middle. */
  predicate Cutting(data: seq<byte>, field: seq<bool>, d: nat, at: nat, sbit: nat, vi: nat) {
    Reading(data, field, d, at, sbit) && vi == Value(field[..d]) % WORD && (d == 0 || sbit == 8)
  }

  lemma StartReading(data: seq<byte>, at: nat, sbit: nat, bits: nat)
    requires 1 <= sbit <= 8 && 8 * at + 8 - sbit + bits <= 8 * |data|
    ensures Reading(data, FieldBits(data, at, sbit, bits), 0, at, sbit)
    ensures FieldBits(data, at, sbit, bits)[..0] == []
  {
    assert FieldBits(data, at, sbit, bits)[0..] == FieldBits(data, at, sbit, bits);
  }

  lemma StartCutting(data: seq<byte>, at: nat, sbit: nat, bits: nat)
    requires 1 <= sbit <= 8 && 8 * at + 8 - sbit + bits <= 8 * |data|
    ensures Cutting(data, FieldBits(data, at, sbit, bits), 0, at, sbit, 0)
  {
    StartReading(data, at, sbit, bits);
  }

  /** A started byte read to its end. */
  lemma ReadBits(data: seq<byte>, field: seq<bool>, d: nat, at: nat, sbit: nat)
    requires Reading(data, field, d, at, sbit) && sbit <= |field| - d
    ensures at < |data| && Reading(data, field, d + sbit, at + 1, 8)
    ensures field[..d + sbit] == field[..d] + FieldBits(data, at, sbit, sbit)
    ensures Value(FieldBits(data, at, sbit, sbit)) == data[at] % Pow2(sbit)
  {
    RestOfByte(data, at, sbit);
    var s, from, n := DataBits(data), 8 * at + 8 - sbit, |field| - d;
    CutTwice(s, from, sbit, n);
    CutField(field, d, sbit);
  }

  lemma CutTwice(s: seq<bool>, from: nat, k: nat, n: nat)
    requires k <= n && from + n <= |s|
    ensures s[from..from + n][..k] == s[from..from + k] && s[from..from + n][k..] == s[from + k..from + n]
  {}

  lemma CutField(field: seq<bool>, d: nat, k: nat)
    requires d + k <= |field|
    ensures field[..d + k] == field[..d] + field[d..][..k] && field[d + k..] == field[d..][k..]
  {}

  /** Bits shifted into the low word of a number. */
  lemma ReadValue(read: seq<bool>, more: seq<bool>, vi: nat)
    requires vi == Value(read) % WORD && |more| <= 32
    ensures ShiftIn(vi, |more|, Value(more)) == Value(read + more) % WORD
  {
    ValueJoin(read, more);
    ValueBound(more);
    Pow2Word();
    Pow2Join(|more|, 32 - |more|);
    ShiftBits(Value(read), vi, Pow2(|more|), Pow2(32 - |more|), Value(more));
  }

  lemma ShiftBits(v: nat, vi: nat, p: nat, m: nat, b: nat)
    requires vi == v % WORD && p * m == WORD && b < p && m > 0
    ensures vi * p % WORD + b == (v * p + b) % WORD
  {
    WrapTimes(v, p);
    Room(v, p, m);
    var q, r := v * p / WORD, v * p % WORD;
    assert v * p + b == q * WORD + (r + b);
    DivMod(v * p + b, q, WORD, r + b);
  }

  /** A multiple of `p` leaves room for less than `p` below the end of the word. */
  lemma Room(v: nat, p: nat, m: nat)
    requires p * m == WORD && m > 0 && p > 0
    ensures v * p % WORD <= WORD - p
  {
    var q, r := v / m, v % m;
    assert v == q * m + r;
    Regroup(q, m, r, p);
    RoomBelow(r, m, p);
    DivMod(v * p, q, WORD, r * p);
  }

  lemma RoomBelow(r: nat, m: nat, p: nat)
    requires r < m && p > 0
    ensures r * p <= m * p - p && r * p < p * m
  {
    TimesGrows(r + 1, m, p);
  }

  lemma Regroup(q: nat, m: nat, r: nat, p: nat)
    ensures (q * m + r) * p == q * (p * m) + r * p
  {}

  /** A first, started byte: nothing has been read before it. */
  lemma ReadFirst(more: seq<bool>)
    requires |more| <= 8
    ensures ShiftIn(0, 8, Value(more)) == Value([] + more) % WORD
  {
    assert [] + more == more;
    SmallValue(more);
    ShiftNothing(Pow2(8), Value(more));
  }

  lemma ShiftNothing(p: nat, v: nat)
    requires v < 256
    ensures 0 * p % WORD + v == v % WORD
  {}

  lemma SmallValue(more: seq<bool>)
    requires |more| <= 8
    ensures Value(more) < 256
  {
    Pow2Small();
    ValueBound(more);
    Pow2Grows(|more|, 8);
  }

  lemma RestOfByte(data: seq<byte>, at: nat, sbit: nat)
    requires at < |data| && 1 <= sbit <= 8
    ensures FieldBits(data, at, sbit, sbit) == BitsOf(data[at], 8)[8 - sbit..8]
    ensures Value(FieldBits(data, at, sbit, sbit)) == data[at] % Pow2(sbit)
  {
    DataByte(data, at);
    var s := DataBits(data);
    SliceOf(s, 8 * at, 8 * at + 8, 8 - sbit, 8);
    ByteField(data[at], 8 - sbit, 8);
    assert 8 - (8 - sbit) == sbit && Pow2(0) == 1;
    Undivided(data[at] % Pow2(sbit));
  }

  lemma Undivided(v: nat)
    ensures v / Pow2(0) == v
  {}

  lemma WrapTimes(v: nat, p: nat)
    ensures v % WORD * p % WORD == v * p % WORD
  {
    var q, r := v / WORD, v % WORD;
    assert v * p == q * p * WORD + r * p;
    ModAdds(r * p, q * p, WORD);
  }

  lemma ModAdds(x: nat, k: nat, m: nat)
    requires m > 0
    ensures (k * m + x) % m == x % m
  {
    var q, r := x / m, x % m;
    assert k * m + x == (k + q) * m + r;
    DivMod(k * m + x, k + q, m, r);
  }

  /** The last, partly read byte: the field ends `r` bits above its end. */
  lemma LastBits(data: seq<byte>, field: seq<bool>, d: nat, at: nat, sbit: nat)
    requires Reading(data, field, d, at, sbit) && |field| - d <= sbit && at < |data|
    ensures var r := sbit - (|field| - d);
      Value(field[d..]) == data[at] % Pow2(sbit) / Pow2(r)
  {
    LastField(data, at, sbit, |field| - d);
  }

  lemma LastField(data: seq<byte>, at: nat, sbit: nat, n: nat)
    requires at < |data| && n <= sbit && 1 <= sbit <= 8
    ensures Value(FieldBits(data, at, sbit, n)) == data[at] % Pow2(sbit) / Pow2(sbit - n)
  {
    FieldInByte(data, at, sbit, n);
    ByteField(data[at], 8 - sbit, 8 - sbit + n);
  }

  lemma FieldInByte(data: seq<byte>, at: nat, sbit: nat, n: nat)
    requires at < |data| && n <= sbit && 1 <= sbit <= 8
    ensures FieldBits(data, at, sbit, n) == BitsOf(data[at], 8)[8 - sbit..8 - sbit + n]
  {
    DataByte(data, at);
    SliceOf(DataBits(data), 8 * at, 8 * at + 8, 8 - sbit, 8 - sbit + n);
  }

  /** `vi << 8`, and the rest of the byte from bit `sbit` on. */
  method TakeByte(ghost data: seq<byte>, ghost field: seq<bool>, ghost d: nat, ghost at: nat,
                  b: byte, sbit: nat, vi: nat)
    returns (next: nat)
    requires Cutting(data, field, d, at, sbit, vi) && sbit <= |field| - d && at < |data| && b == data[at]
    ensures Cutting(data, field, d + sbit, at + 1, 8, next)
  {
    ReadBits(data, field, d, at, sbit);
    ghost var more := FieldBits(data, at, sbit, sbit);
    if d == 0 {
      assert field[..d] == [];
      ReadFirst(more);
    } else {
      ReadValue(field[..d], more, vi);
    }
    next := ShiftIn(vi, 8, b % Pow2(sbit));
  }

  /** `vi << left`, and the next `left` bits of a byte. */
  method TakeBits(ghost data: seq<byte>, ghost field: seq<bool>, ghost d: nat, ghost at: nat,
                  b: byte, sbit: nat, left: nat, vi: nat)
    returns (next: nat)
    requires Cutting(data, field, d, at, sbit, vi) && left <= sbit && d + left == |field|
    requires at < |data| && b == data[at]
    ensures next == Value(field) % WORD
  {
    LastBits(data, field, d, at, sbit);
    ReadValue(field[..d], field[d..], vi);
    assert field[..d] + field[d..] == field;
    next := ShiftIn(vi, left, b % Pow2(sbit) / Pow2(sbit - left));
  }

  lemma FitsWord(bits: seq<bool>)
    ensures |bits| <= 32 ==> Value(bits) % WORD == Value(bits)
  {
    if |bits| <= 32 {
      ValueBound(bits);
      Pow2Word();
      Pow2Grows(|bits|, 32);
    }
  }

  /**
    `CombineBitsBE`: the field as a number; it starts at a bit counted from the least significant of a byte.  No bits
    give zero; inside a byte that byte is read all the same, and fewer than none would shift by a negative number.
   */
  method CombineBitsBE(data: seq<byte>, start: nat, bits: int) returns (vi: nat)
    requires bits >= 0 || start % 8 == 7
    requires bits >= 1 ==> 8 * (start / 8) + 7 - start % 8 + bits <= 8 * |data|
    requires bits == 0 && start % 8 != 7 ==> start / 8 < |data|
    ensures bits < 1 ==> vi == 0
    ensures bits >= 1 ==> vi == Value(FieldBits(data, start / 8, start % 8 + 1, bits)) % WORD
    ensures 1 <= bits <= 32 ==> vi == Value(FieldBits(data, start / 8, start % 8 + 1, bits))
  {
    var at, sbit := start / 8, start % 8 + 1;
    if bits >= 1 {
      FitsWord(FieldBits(data, at, sbit, bits));
    }
    if sbit == 8 {
      vi := 0;
      if bits >= 1 {
        vi := WholeBytes(data, at, bits);
      }
    } else {
      vi := StartedBytes(data, at, sbit, bits);
    }
  }

  method WholeBytes(data: seq<byte>, start: nat, bits: nat) returns (vi: nat)
    requires 8 * start + bits <= 8 * |data|
    ensures vi == Value(FieldBits(data, start, 8, bits)) % WORD
  {
    var at: nat, left: nat := start, bits;
    ghost var field := FieldBits(data, at, 8, bits);
    ghost var d: nat := 0;
    StartCutting(data, at, 8, bits);
    vi := 0;
    while left >= 8
      invariant d + left == bits && Cutting(data, field, d, at, 8, vi)
    {
      vi := TakeByte(data, field, d, at, data[at], 8, vi);
      at, left, d := at + 1, left - 8, d + 8;
    }
    if left > 0 {
      vi := TakeBits(data, field, d, at, data[at], 8, left, vi);
    } else {
      assert field[..d] == field;
    }
  }

  method StartedBytes(data: seq<byte>, start: nat, sbit0: nat, bits: nat) returns (vi: nat)
    requires 1 <= sbit0 <= 8 && start < |data| && 8 * start + 8 - sbit0 + bits <= 8 * |data|
    ensures vi == Value(FieldBits(data, start, sbit0, bits)) % WORD
    ensures bits == 0 ==> vi == 0
  {
    var at: nat, sbit: nat, left: nat := start, sbit0, bits;
    ghost var field := FieldBits(data, at, sbit, bits);
    ghost var d: nat := 0;
    StartCutting(data, at, sbit, bits);
    vi := 0;
    while sbit < left
      invariant d + left == bits && at < |data| && Cutting(data, field, d, at, sbit, vi)
      decreases left
    {
      vi := TakeByte(data, field, d, at, data[at], sbit, vi);
      at, left, d := at + 1, left - sbit, d + sbit;
      sbit := 8;
    }
    vi := TakeBits(data, field, d, at, data[at], sbit, left, vi);
  }

  // ----- Fields that end inside the word: shifted in whole, shifted out again -----

  /** `combine_bits_length`: bits pushed out of the top of the word by the last byte are lost. */
  method CombineBitsLength(data: seq<byte>, start: nat, sbit0: nat, bits: nat) returns (vi: nat)
    requires 1 <= sbit0 <= 8 && start < |data| && 8 * start + 8 - sbit0 + bits <= 8 * |data|
    ensures vi == Value(FieldBits(data, start, sbit0, bits)) % Pow2(32 - Below(sbit0, bits))
    ensures bits + Below(sbit0, bits) <= 32 ==> vi == Value(FieldBits(data, start, sbit0, bits))
  {
    vi := BytesOf(data, start, sbit0, bits);
    NothingLost(FieldBits(data, start, sbit0, bits), Below(sbit0, bits));
  }

  method BytesOf(data: seq<byte>, start: nat, sbit0: nat, bits: nat) returns (vi: nat)
    requires 1 <= sbit0 <= 8 && start < |data| && 8 * start + 8 - sbit0 + bits <= 8 * |data|
    ensures vi == Value(FieldBits(data, start, sbit0, bits)) % Pow2(32 - Below(sbit0, bits))
  {
    var at: nat, sbit: nat, left: nat := start, sbit0, bits;
    ghost var field := FieldBits(data, at, sbit, bits);
    ghost var d: nat := 0;
    StartCutting(data, at, sbit, bits);
    vi := 0;
    while sbit < left
      invariant d + left == bits && at < |data| && Cutting(data, field, d, at, sbit, vi)
      invariant Below(sbit, left) == Below(sbit0, bits)
      decreases left
    {
      vi := TakeByte(data, field, d, at, data[at], sbit, vi);
      at, left, d := at + 1, left - sbit, d + sbit;
      sbit := 8;
    }
    vi := TakeEnd(data, field, d, at, data[at], sbit, left, vi);
  }

  /** How many bits of its last byte lie below the field. */
  function Below(sbit: nat, bits: nat): nat
    requires 1 <= sbit <= 8
    ensures Below(sbit, bits) <= 8
    decreases bits
  {
    if bits <= sbit then sbit - bits else Below(8, bits - sbit)
  }

  lemma NothingLost(field: seq<bool>, r: nat)
    requires r <= 8
    ensures |field| + r <= 32 ==> Value(field) % Pow2(32 - r) == Value(field)
  {
    if |field| + r <= 32 {
      ValueBound(field);
      Pow2Grows(|field|, 32 - r);
      SmallMod(Value(field), Pow2(32 - r));
    }
  }

  lemma SmallMod(v: nat, p: nat)
    requires v < p
    ensures v % p == v
  {}

  /** `vi << 8`, the bits of the last byte in their places, then the whole shifted down. */
  method TakeEnd(ghost data: seq<byte>, ghost field: seq<bool>, ghost d: nat, ghost at: nat,
                 b: byte, sbit: nat, left: nat, vi: nat)
    returns (next: nat)
    requires Cutting(data, field, d, at, sbit, vi) && left <= sbit && d + left == |field|
    requires at < |data| && b == data[at]
    ensures next == Value(field) % Pow2(32 - (sbit - left))
  {
    var r := sbit - left;
    LastBits(data, field, d, at, sbit);
    EndValue(field, d, r, vi);
    next := ShiftIn(vi, 8, b % Pow2(sbit) / Pow2(r) * Pow2(r)) / Pow2(r);
  }

  lemma EndValue(field: seq<bool>, d: nat, r: nat, vi: nat)
    requires d <= |field| && r <= 8 && vi == Value(field[..d]) % WORD
    requires |field| - d + r <= 8 && (d == 0 || |field| - d + r == 8)
    ensures ShiftIn(vi, 8, Value(field[d..]) * Pow2(r)) / Pow2(r) == Value(field) % Pow2(32 - r)
  {
    var n := |field| - d;
    assert field[..d] + field[d..] == field;
    ValueJoin(field[..d], field[d..]);
    ValueBound(field[d..]);
    EndWord(n, r);
    EndNumber(Value(field[..d]), vi, Value(field[d..]), Pow2(n), Pow2(r), Pow2(32 - r));
  }

  lemma EndNumber(v: nat, vi: nat, x: nat, n: nat, p: nat, m: nat)
    requires vi == v % WORD && x < n && p * m == WORD && p > 0 && m > 0
    requires n * p <= 256 && (v == 0 || n * p == 256)
    ensures (vi * 256 % WORD + x * p) / p == (v * n + x) % m
  {
    EndFits(x, n, p);
    ShiftBits(v, vi, 256, 0x100_0000, x * p);
    if v == 0 {
      EndFirst(v, x, p, n);
    } else {
      Collect(v, n, x, p);
    }
    EndShifts(v * n + x, p, m);
  }

  lemma EndWord(n: nat, r: nat)
    requires n + r <= 8
    ensures Pow2(r) * Pow2(32 - r) == WORD && Pow2(8) == 256
    ensures Pow2(n) * Pow2(r) <= 256 && (n + r == 8 ==> Pow2(n) * Pow2(r) == 256)
  {
    Pow2Word();
    Pow2Join(r, 32 - r);
    Pow2Join(n, r);
    Pow2Small();
    Pow2Grows(n + r, 8);
  }

  lemma EndFirst(v: nat, x: nat, p: nat, n: nat)
    requires v == 0
    ensures v * 256 + x * p == (v * n + x) * p
  {}

  lemma EndFits(x: nat, n: nat, p: nat)
    requires x < n && p > 0
    ensures x * p < n * p
  {}

  lemma Collect(v: nat, n: nat, x: nat, p: nat)
    ensures (v * n + x) * p == v * (n * p) + x * p
  {}

  lemma EndShifts(z: nat, p: nat, m: nat)
    requires p * m == WORD && p > 0 && m > 0
    ensures z * p % WORD / p == z % m
  {
    var q, r := z / m, z % m;
    assert z == q * m + r;
    Regroup(q, m, r, p);
    RoomBelow(r, m, p);
    DivMod(z * p, q, WORD, r * p);
    DivMod(r * p, r, p, 0);
  }

  /** `combine_bits_range`: the same field given by its ends. */
  method CombineBitsRange(data: seq<byte>, start: nat, sbit0: nat, ebyte: nat, ebit: nat) returns (vi: nat)
    requires 1 <= sbit0 <= 8 && 1 <= ebit <= 8 && start <= ebyte < |data| && (start == ebyte ==> ebit <= sbit0)
    ensures var bits := 8 * (ebyte - start) + sbit0 - ebit + 1;
      && vi == Value(FieldBits(data, start, sbit0, bits)) % Pow2(33 - ebit)
      && (bits + ebit <= 33 ==> vi == Value(FieldBits(data, start, sbit0, bits)))
  {
    vi := BytesUp(data, start, sbit0, ebyte, ebit, 8 * (ebyte - start) + sbit0 - ebit + 1);
    NothingLost(FieldBits(data, start, sbit0, 8 * (ebyte - start) + sbit0 - ebit + 1), ebit - 1);
  }

  method BytesUp(data: seq<byte>, start: nat, sbit0: nat, ebyte: nat, ebit: nat, ghost bits: nat)
    returns (vi: nat)
    requires 1 <= sbit0 <= 8 && 1 <= ebit <= 8 && start <= ebyte < |data|
    requires 0 < bits == 8 * (ebyte - start) + sbit0 + 1 - ebit
    ensures vi == Value(FieldBits(data, start, sbit0, bits)) % Pow2(33 - ebit)
  {
    var at: nat, sbit: nat := start, sbit0;
    ghost var field := FieldBits(data, at, sbit, bits);
    ghost var d: nat := 0;
    StartCutting(data, at, sbit, bits);
    vi := 0;
    while at < ebyte
      invariant Upwards(data, field, ebyte, ebit, d, at, sbit, vi)
    {
      vi := UpByte(data, field, ebyte, ebit, d, at, sbit, vi);
      at, d := at + 1, d + sbit;
      sbit := 8;
    }
    vi := UpEnd(data, field, ebyte, ebit, d, sbit, vi);
  }

  /** Reading stands at byte `at`, on its way to `ebyte`. */
  predicate Upwards(data: seq<byte>, field: seq<bool>, ebyte: nat, ebit: nat, d: nat, at: nat, sbit: nat, vi: nat) {
    && at <= ebyte < |data| && 1 <= ebit <= 8
    && d + 8 * (ebyte - at) + sbit + 1 == |field| + ebit && (at == ebyte ==> ebit <= sbit)
    && Cutting(data, field, d, at, sbit, vi)
  }

  method UpEnd(data: seq<byte>, ghost field: seq<bool>, ebyte: nat, ebit: nat, ghost d: nat, sbit: nat, vi: nat)
    returns (next: nat)
    requires Upwards(data, field, ebyte, ebit, d, ebyte, sbit, vi)
    ensures next == Value(field) % Pow2(33 - ebit)
  {
    assert 32 - (sbit - (sbit - ebit + 1)) == 33 - ebit;
    next := TakeEnd(data, field, d, ebyte, data[ebyte], sbit, sbit - ebit + 1, vi);
  }

  method UpByte(data: seq<byte>, ghost field: seq<bool>, ghost ebyte: nat, ghost ebit: nat, ghost d: nat,
                at: nat, sbit: nat, vi: nat)
    returns (next: nat)
    requires Upwards(data, field, ebyte, ebit, d, at, sbit, vi) && at < ebyte
    ensures Upwards(data, field, ebyte, ebit, d + sbit, at + 1, 8, next)
  {
    next := TakeByte(data, field, d, at, data[at], sbit, vi);
  }

  // ----- Little-endian fields -----

  /** The bytes as one number, the least significant first. */
  function LEValue(data: seq<byte>): nat {
    if data == [] then 0 else
      var n := |data| - 1;
      LEValue(data[..n]) + data[n] * Pow2(8 * n)
  }

  /** `bits` bits of the number from bit `from` on. */
  function LEField(data: seq<byte>, from: nat, bits: nat): nat {
    LEValue(data) / Pow2(from) % Pow2(bits)
  }

  function Backwards(data: seq<byte>): (r: seq<byte>)
    ensures |r| == |data| && forall k: nat :: k < |data| ==> r[k] == data[|data| - 1 - k]
  {
    seq(|data|, k requires 0 <= k < |data| => data[|data| - 1 - k])
  }

  /** Read backwards, the bytes hold the bits of the number from the most significant on. */
  lemma {:induction false} BackwardsValue(data: seq<byte>)
    ensures Value(DataBits(Backwards(data))) == LEValue(data)
    decreases |data|
  {
    if data != [] {
      var n := |data| - 1;
      BackwardsValue(data[..n]);
      assert Backwards(data) == [data[n]] + Backwards(data[..n]);
      DataJoin([data[n]], Backwards(data[..n]));
      OneByte(data[n]);
      ValueJoin(BitsOf(data[n], 8), DataBits(Backwards(data[..n])));
      ByteValue(data[n]);
    }
  }

  /** Bytes above the field do not show in it. */
  lemma {:induction false} LowPart(data: seq<byte>, k: nat, from: nat, bits: nat)
    requires k <= |data| && from + bits <= 8 * k
    ensures LEField(data[..k], from, bits) == LEField(data, from, bits)
    decreases |data|
  {
    if k < |data| {
      var n := |data| - 1;
      LowPart(data[..n], k, from, bits);
      assert data[..n][..k] == data[..k];
      var above := 8 * n - from - bits;
      Pow2Join(from, bits + above);
      Pow2Join(bits, above);
      DropTop(LEValue(data[..n]), data[n], Pow2(from), Pow2(bits), Pow2(above));
    } else {
      assert data[..k] == data;
    }
  }

  lemma DropTop(x: nat, b: nat, p: nat, q: nat, r: nat)
    requires p > 0 && q > 0
    ensures (x + b * (p * (q * r))) / p % q == x / p % q
  {
    var d, m := x / p, x % p;
    TopFactor(b, p, q, r);
    AddFactor(d, b * r * q, p);
    DivMod(x + b * (p * (q * r)), d + b * r * q, p, m);
    ModAdds(d, b * r, q);
  }

  lemma AddFactor(d: nat, t: nat, p: nat)
    ensures (d + t) * p == d * p + t * p
  {}

  lemma TopFactor(b: nat, p: nat, q: nat, r: nat)
    ensures b * (p * (q * r)) == b * r * q * p
  {}

  /** The field found in the bytes read backwards. */
  lemma BackwardsField(data: seq<byte>, from: nat, bits: nat)
    requires 0 < bits && from + bits <= 8 * |data|
    ensures var e, ebit := (from + bits - 1) / 8, (from + bits - 1) % 8 + 1;
      && e < |data|
      && Value(FieldBits(Backwards(data[..e + 1]), 0, ebit, bits)) == LEField(data, from, bits)
  {
    var e, ebit := (from + bits - 1) / 8, (from + bits - 1) % 8 + 1;
    var s := DataBits(Backwards(data[..e + 1]));
    BackwardsValue(data[..e + 1]);
    MiddleValue(s, 8 - ebit, bits, from);
    LowPart(data, e + 1, from, bits);
  }

  lemma MiddleValue(s: seq<bool>, k: nat, bits: nat, from: nat)
    requires k + bits + from == |s|
    ensures Value(s[k..k + bits]) == Value(s) / Pow2(from) % Pow2(bits)
  {
    var upTo := s[..k + bits];
    assert |s| - (k + bits) == from && |upTo| - k == bits;
    ValueCut(s, k + bits);
    ValueCut(upTo, k);
    assert upTo[k..] == s[k..k + bits];
  }

  /** `CombineBitsLE`: no bits, no field. */
  method CombineBitsLE(data: seq<byte>, start: nat, bits: int) returns (vi: nat)
    requires bits >= 1 ==> start + bits <= 8 * |data|
    ensures bits < 1 ==> vi == 0
    ensures bits >= 1 ==> vi == LEField(data, start, bits) % WORD
    ensures 1 <= bits <= 32 ==> vi == LEField(data, start, bits)
  {
    if bits < 1 {
      return 0;
    }
    var sbyte, sbit := start / 8, start % 8 + 1;
    var ebyte, ebit := (start + bits - 1) / 8, (start + bits - 1) % 8 + 1;
    BackwardsField(data, start, bits);
    vi := BytesDown(data, sbyte, sbit, ebyte, ebit, bits);
    FitsWord(FieldBits(Backwards(data[..ebyte + 1]), 0, ebit, bits));
  }

  /** From bit `ebit0` of byte `top` down to bit `sbit` of byte `sbyte`. */
  method BytesDown(data: seq<byte>, sbyte: nat, sbit: nat, top: nat, ebit0: nat, ghost bits: nat)
    returns (vi: nat)
    requires sbyte <= top < |data| && 1 <= sbit <= 8 && 1 <= ebit0 <= 8
    requires 0 < bits == 8 * (top - sbyte) + ebit0 + 1 - sbit
    ensures vi == Value(FieldBits(Backwards(data[..top + 1]), 0, ebit0, bits)) % WORD
  {
    var ebyte: nat, ebit: nat := top, ebit0;
    ghost var back := Backwards(data[..top + 1]);
    ghost var field := FieldBits(back, 0, ebit, bits);
    ghost var d: nat := 0;
    StartCutting(back, 0, ebit, bits);
    vi := 0;
    while ebyte > sbyte
      invariant Downwards(data, top, field, sbyte, sbit, d, ebyte, ebit, vi)
      decreases ebyte
    {
      vi := DownByte(data, top, field, sbyte, sbit, d, ebyte, ebit, vi);
      ebyte, d := ebyte - 1, d + ebit;
      ebit := 8;
    }
    vi := TakeBits(back, field, d, top - ebyte, data[ebyte], ebit, ebit - sbit + 1, vi);
  }

  /** Reading stands at byte `ebyte`, on its way down from `top` to `sbyte`. */
  predicate Downwards(data: seq<byte>, top: nat, field: seq<bool>, sbyte: nat, sbit: nat, d: nat,
                      ebyte: nat, ebit: nat, vi: nat) {
    && sbyte <= ebyte <= top < |data| && 1 <= sbit <= 8
    && d + 8 * (ebyte - sbyte) + ebit + 1 == |field| + sbit && (ebyte == sbyte ==> sbit <= ebit)
    && Cutting(Backwards(data[..top + 1]), field, d, top - ebyte, ebit, vi)
  }

  method DownByte(data: seq<byte>, ghost top: nat, ghost field: seq<bool>, ghost sbyte: nat, ghost sbit: nat,
                  ghost d: nat, ebyte: nat, ebit: nat, vi: nat)
    returns (next: nat)
    requires Downwards(data, top, field, sbyte, sbit, d, ebyte, ebit, vi) && sbyte < ebyte
    ensures Downwards(data, top, field, sbyte, sbit, d + ebit, ebyte - 1, 8, next)
  {
    next := TakeByte(Backwards(data[..top + 1]), field, d, top - ebyte, data[ebyte], ebit, vi);
  }

  // ----- Single bits -----

  lemma {:induction false} BitAt(v: nat, n: nat, k: nat)
    requires k < n
    ensures BitsOf(v, n)[k] <==> v / Pow2(n - 1 - k) % 2 == 1
    decreases n
  {
    if k < n - 1 {
      BitAt(v / 2, n - 1, k);
      HalfDiv(v, Pow2(n - 2 - k));
    }
  }

  lemma HalfDiv(v: nat, p: nat)
    requires p > 0
    ensures v / (2 * p) == v / 2 / p
  {
    var q, r := v / 2 / p, v / 2 % p;
    assert v / 2 == q * p + r;
    assert v == q * (2 * p) + (2 * r + v % 2);
    DivMod(v, q, 2 * p, 2 * r + v % 2);
  }

  /** `query_bit`: bit `bits`, counted from 1, of every field that starts here and is long enough. */
  method QueryBit(data: seq<byte>, start: nat, sbit: nat, bits: nat) returns (b: bool)
    requires 1 <= sbit <= 8 && 0 < bits && 8 * start + 8 - sbit + bits <= 8 * |data|
    ensures forall n: nat :: bits <= n && 8 * start + 8 - sbit + n <= 8 * |data| ==>
      b == FieldBits(data, start, sbit, n)[bits - 1]
  {
    var at: nat, left: nat := start, bits + (8 - sbit);
    while left > 8
      invariant 0 < left && 8 * at + left == 8 * start + 8 - sbit + bits
    {
      at, left := at + 1, left - 8;
    }
    DataByte(data, at);
    BitAt(data[at], 8, left - 1);
    b := data[at] / Pow2(8 - left) % 2 == 1;
  }

  /** The set bits, each worth the power of two its place gives it. */
  function Weights(bits: seq<bool>): nat {
    if bits == [] then 0 else (if bits[0] then Pow2(|bits| - 1) else 0) + Weights(bits[1..])
  }

  lemma {:induction false} ValueIsWeights(bits: seq<bool>)
    ensures Value(bits) == Weights(bits)
  {
    if bits != [] {
      ValueIsWeights(bits[1..]);
      var head := [bits[0]];
      assert bits == head + bits[1..];
      ValueJoin(head, bits[1..]);
      assert head[..0] == [];
    }
  }

  /** How many of the bits are set. */
  function Ones(bits: seq<bool>): nat {
    if bits == [] then 0 else Ones(bits[..|bits| - 1]) + (if bits[|bits| - 1] then 1 else 0)
  }

  lemma {:induction false} OnesJoin(a: seq<bool>, b: seq<bool>)
    ensures Ones(a + b) == Ones(a) + Ones(b)
    decreases |b|
  {
    if b == [] {
      assert a + b == a;
    } else {
      FrontJoin(a, b);
      OnesJoin(a, b[..|b| - 1]);
    }
  }

  /** A number that fits has as many ones in any width that holds it. */
  function OnesOf(v: nat): nat {
    if v == 0 then 0 else OnesOf(v / 2) + v % 2
  }

  lemma {:induction false} OnesValue(bits: seq<bool>)
    ensures OnesOf(Value(bits)) == Ones(bits)
    decreases |bits|
  {
    if bits != [] {
      OnesValue(bits[..|bits| - 1]);
    }
  }

  lemma {:induction false} OnesShift(v: nat, r: nat)
    ensures OnesOf(v * Pow2(r)) == OnesOf(v)
    decreases r
  {
    if r > 0 {
      OnesShift(v, r - 1);
      TwiceLess(v, Pow2(r - 1));
      OnesTwice(v * Pow2(r - 1));
    }
  }

  lemma TwiceLess(v: nat, p: nat)
    ensures v * (2 * p) == 2 * (v * p)
  {}

  lemma OnesTwice(v: nat)
    ensures OnesOf(2 * v) == OnesOf(v)
  {
    if v > 0 {
      assert 2 * v / 2 == v && 2 * v % 2 == 0;
    }
  }

  method CountBitsOctet(b: nat) returns (count: nat)
    ensures count == OnesOf(b)
  {
    var rest := b;
    count := 0;
    while rest != 0
      invariant count + OnesOf(rest) == OnesOf(b)
    {
      if rest % 2 == 1 {
        count := count + 1;
      }
      rest := rest / 2;
    }
  }

  /** `count_bits_length`: how many bits of the field are set. */
  method CountBitsLength(data: seq<byte>, start: nat, sbit0: nat, bits: nat) returns (count: nat)
    requires 1 <= sbit0 <= 8 && start < |data| && 8 * start + 8 - sbit0 + bits <= 8 * |data|
    ensures count == Ones(FieldBits(data, start, sbit0, bits))
  {
    var at: nat, sbit: nat, left: nat := start, sbit0, bits;
    ghost var field := FieldBits(data, at, sbit, bits);
    ghost var d: nat := 0;
    StartReading(data, at, sbit, bits);
    count := 0;
    while sbit < left
      invariant d + left == bits && Reading(data, field, d, at, sbit) && count == Ones(field[..d])
      invariant at < |data|
      decreases left
    {
      count := CountByte(data, field, d, at, data[at], sbit, count);
      at, left, d := at + 1, left - sbit, d + sbit;
      sbit := 8;
    }
    count := CountEnd(data, field, d, at, data[at], sbit, left, count);
  }

  lemma OnesEnd(field: seq<bool>, d: nat, r: nat)
    requires d <= |field|
    ensures OnesOf(Value(field[d..]) * Pow2(r)) + Ones(field[..d]) == Ones(field)
  {
    OnesShift(Value(field[d..]), r);
    OnesValue(field[d..]);
    OnesJoin(field[..d], field[d..]);
    assert field[..d] + field[d..] == field;
  }

  method CountByte(ghost data: seq<byte>, ghost field: seq<bool>, ghost d: nat, ghost at: nat,
                   b: byte, sbit: nat, count: nat)
    returns (next: nat)
    requires Reading(data, field, d, at, sbit) && sbit <= |field| - d && at < |data| && b == data[at]
    requires count == Ones(field[..d])
    ensures Reading(data, field, d + sbit, at + 1, 8) && next == Ones(field[..d + sbit])
  {
    ReadBits(data, field, d, at, sbit);
    OnesJoin(field[..d], FieldBits(data, at, sbit, sbit));
    OnesValue(FieldBits(data, at, sbit, sbit));
    next := CountBitsOctet(b % Pow2(sbit));
    next := count + next;
  }

  /** The bits of the last byte are counted in their places. */
  method CountEnd(ghost data: seq<byte>, ghost field: seq<bool>, ghost d: nat, ghost at: nat,
                  b: byte, sbit: nat, left: nat, count: nat)
    returns (next: nat)
    requires Reading(data, field, d, at, sbit) && left <= sbit && d + left == |field|
    requires at < |data| && b == data[at]
    requires count == Ones(field[..d])
    ensures next == Ones(field)
  {
    LastBits(data, field, d, at, sbit);
    ghost var r := sbit - left;
    OnesEnd(field, d, r);
    assert b % Pow2(sbit) / Pow2(r) == Value(field[d..]);
    next := CountBitsOctet(b % Pow2(sbit) / Pow2(sbit - left) * Pow2(sbit - left));
    next := count + next;
  }

  // ----- Septets (section 6.1.2.1 of 3GPP TS 23.038) -----

  /** What the bytes before byte `i` leave over for the septet after those already cut. */
  predicate LeftOver(p: seq<byte>, i: nat, j: nat, temp: nat) {
    && i <= |p| && 7 * j + i % 7 == 8 * i
    && temp == LEValue(p[..i]) / Pow2(7 * j) && temp < Pow2(i % 7)
  }

  /** The septet that byte `i` completes, and what it leaves over. */
  lemma SeptetStep(p: seq<byte>, i: nat, j: nat, temp: nat, lo: nat, up: nat)
    requires LeftOver(p, i, j, temp) && i < |p| && lo == Pow2(i % 7) && up == Pow2(7 - i % 7)
    ensures p[i] % up * lo + temp == LEField(p, 7 * j, 7) < 128
    ensures 0 <= p[i] / up == LEValue(p[..i + 1]) / Pow2(7 * (j + 1)) < Pow2(i % 7 + 1)
  {
    MoreBits(p, i, j, temp, lo);
    SplitSeven(i % 7, lo, up);
    SeptetParts(p[i], lo, up, temp);
    Seven(LEValue(p[..i + 1]), j);
    LowPart(p, i + 1, 7 * j, 7);
    QuotientBelow(p[i], Pow2(i % 7 + 1), up);
  }

  lemma SplitSeven(s: nat, lo: nat, up: nat)
    requires s < 7 && lo == Pow2(s) && up == Pow2(7 - s)
    ensures lo * up == 128 && Pow2(s + 1) * up == 256
  {
    Pow2Join(s, 7 - s);
    Pow2Join(s + 1, 7 - s);
    Pow2Small();
  }

  lemma MoreBits(p: seq<byte>, i: nat, j: nat, temp: nat, lo: nat)
    requires LeftOver(p, i, j, temp) && i < |p| && lo == Pow2(i % 7)
    ensures LEValue(p[..i + 1]) / Pow2(7 * j) == temp + p[i] * lo
  {
    assert p[..i + 1][..i] == p[..i];
    Pow2Join(7 * j, i % 7);
    AddedByte(LEValue(p[..i]), p[i], Pow2(7 * j), lo, temp);
  }

  lemma Seven(v: nat, j: nat)
    ensures v / Pow2(7 * j) / 128 == v / Pow2(7 * (j + 1)) && Pow2(7) == 128
  {
    Pow2Small();
    Pow2Join(7 * j, 7);
    DivTwice(v, Pow2(7 * j), 128);
  }

  lemma AddedByte(x: nat, b: nat, p: nat, lo: nat, temp: nat)
    requires p > 0 && temp == x / p
    ensures (x + b * (p * lo)) / p == temp + b * lo
  {
    var m := x % p;
    assert x == temp * p + m;
    Regrouped(b, p, lo);
    DivMod(x + b * (p * lo), temp + b * lo, p, m);
  }

  lemma Regrouped(b: nat, p: nat, lo: nat)
    ensures b * (p * lo) == b * lo * p
  {}

  lemma SeptetParts(b: nat, lo: nat, up: nat, temp: nat)
    requires lo * up == 128 && temp < lo && up > 0
    ensures (temp + b * lo) % 128 == b % up * lo + temp < 128
    ensures (temp + b * lo) / 128 == b / up
  {
    var q, r := b / up, b % up;
    assert b == q * up + r;
    Regroup(q, up, r, lo);
    assert up * lo == lo * up;
    RoomBelow(r, up, lo);
    DivMod(temp + b * lo, q, 128, r * lo + temp);
  }

  lemma DivTwice(v: nat, p: nat, q: nat)
    requires p > 0 && q > 0
    ensures v / p / q == v / (p * q)
  {
    var a, m := v / p, v % p;
    var d, r := a / q, a % q;
    assert v == a * p + m && a == d * q + r;
    TwoDigits(v, a, d, p, q, r, m);
    DivMod(v, d, p * q, r * p + m);
  }

  lemma TwoDigits(v: nat, a: nat, d: nat, p: nat, q: nat, r: nat, m: nat)
    requires v == a * p + m && a == d * q + r && m < p && r < q
    ensures v == d * (p * q) + (r * p + m) && r * p + m < p * q
  {
    Regroup(d, q, r, p);
    RoomBelow(r, q, p);
  }

  /** `decode_bit7`: the septets of the text, least significant bit first, and a terminator. */
  method DecodeBit7(p: seq<byte>, q: array<byte>)
    requires q.Length > |p| + |p| / 7
    modifies q
    ensures forall m: nat :: m < |p| + |p| / 7 ==> q[m] == LEField(p, 7 * m, 7)
    ensures q[|p| + |p| / 7] == 0
    ensures forall m: nat :: |p| + |p| / 7 < m < q.Length ==> q[m] == old(q[m])
  {
    var i: nat, j: nat, temp: nat := 0, 0, 0;
    while i < |p|
      invariant i <= |p| && j == i + i / 7 && LeftOver(p, i, j, temp)
      invariant forall m: nat :: m < j ==> q[m] == LEField(p, 7 * m, 7)
      invariant forall m: nat :: j <= m < q.Length ==> q[m] == old(q[m])
    {
      q[j], temp := CutSeptet(p, i, j, temp);
      j := j + 1;
      if i % 7 == 6 {
        WholeSeptets(p, i + 1, j, temp);
        q[j] := temp;
        j := j + 1;
        temp := 0;
      }
      i := i + 1;
    }
    q[j] := 0;
  }

  method CutSeptet(p: seq<byte>, i: nat, ghost j: nat, temp: nat) returns (v: byte, rest: nat)
    requires LeftOver(p, i, j, temp) && i < |p|
    ensures v == LEField(p, 7 * j, 7)
    ensures rest == LEValue(p[..i + 1]) / Pow2(7 * (j + 1)) < Pow2(i % 7 + 1)
  {
    var b: nat, lo, up := p[i], Pow2(i % 7), Pow2(7 - i % 7);
    SeptetStep(p, i, j, temp, lo, up);
    v := b % up * lo + temp;
    rest := b / up;
  }

  /** After seven bytes the eighth septet is complete and nothing is left over. */
  lemma WholeSeptets(p: seq<byte>, i: nat, j: nat, temp: nat)
    requires i <= |p| && 7 * (j + 1) == 8 * i && temp == LEValue(p[..i]) / Pow2(7 * j) && temp < 128
    ensures temp == LEField(p, 7 * j, 7)
    ensures LEValue(p[..i]) / Pow2(7 * (j + 1)) == 0
  {
    Seven(LEValue(p[..i]), j);
    LowPart(p, i, 7 * j, 7);
  }
}
