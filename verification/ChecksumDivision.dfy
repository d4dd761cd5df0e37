/**
  The frame check sequences of `lch/util/algorithm.c`: appendix C of RFC 1662 (fcs16, fcs32) and
  appendix B of RFC 4960 (crc32c).  The reference is a register that divides the message by the
  polynomial one bit at a time; this module proves what its remainders detect, and the table-driven loops are
  proved to compute it in the next one.
 */
module ChecksumDivision {
  datatype Code = Fcs16 | Fcs32 | Crc32c

  /** The generator polynomial, bits reversed, without its leading term. */
  function Poly(code: Code): bv32 {
    match code
    case Fcs16 => 0x8408
    case Fcs32 => 0xedb88320
    case Crc32c => 0x82f63b78
  }

  function Width(code: Code): nat {
    if code == Fcs16 then 16 else 32
  }

  /** All the bits of the register; also what it starts from. */
  function Full(code: Code): bv32 {
    if code == Fcs16 then 0xffff else 0xffffffff
  }

  /** The 16-bit code leaves the upper half of the word alone. */
  predicate Fits(code: Code, c: bv32) {
    code == Fcs16 ==> c & 0xffff0000 == 0
  }

  function Top(code: Code): bv32 {
    if code == Fcs16 then 0x8000 else 0x80000000
  }

  // ----- The reference: division, one bit at a time -----

  function BitStep(code: Code, c: bv32): bv32 {
    if c & 1 == 1 then (c >> 1) ^ Poly(code) else c >> 1
  }

  /** Add one message bit to the register and shift it out. */
  function Enter(code: Code, c: bv32, bit: bool): bv32 {
    BitStep(code, if bit then c ^ 1 else c)
  }

  function Divide(code: Code, c: bv32, bits: seq<bool>): bv32
    decreases |bits|
  {
    if bits == [] then c else Divide(code, Enter(code, c, bits[0]), bits[1..])
  }

  function Half(x: bv32): bv32 {
    x >> 1
  }

  function Byte(b: bv8): bv32 {
    b as bv32
  }

  /** The `k` low bits of a word in the order they are sent, lowest first. */
  function LowBits(w: bv32, k: nat): seq<bool>
    decreases k
  {
    if k == 0 then [] else [w & 1 == 1] + LowBits(Half(w), k - 1)
  }

  function Bits(data: seq<bv8>): seq<bool> {
    if data == [] then [] else Bits(data[..|data| - 1]) + LowBits(Byte(data[|data| - 1]), 8)
  }

  /** The check sequence of a message. */
  function Remainder(code: Code, data: seq<bv8>): bv32 {
    Divide(code, Full(code), Bits(data))
  }

  lemma {:induction false} DivideConcat(code: Code, c: bv32, a: seq<bool>, b: seq<bool>)
    ensures Divide(code, c, a + b) == Divide(code, Divide(code, c, a), b)
    decreases |a|
  {
    if a == [] {
      assert a + b == b;
    } else {
      DivideConcat(code, Enter(code, c, a[0]), a[1..], b);
      assert (a + b)[1..] == a[1..] + b;
    }
  }

  lemma {:induction false} DivideFits(code: Code, c: bv32, bits: seq<bool>)
    requires Fits(code, c)
    ensures Fits(code, Divide(code, c, bits))
    decreases |bits|
  {
    if bits != [] {
      EnterFits(code, c, bits[0]);
      DivideFits(code, Enter(code, c, bits[0]), bits[1..]);
    }
  }

  lemma EnterFits(code: Code, c: bv32, bit: bool)
    requires Fits(code, c)
    ensures Fits(code, Enter(code, c, bit))
  {}

  // ----- Bursts: two messages that differ within the width never collide -----

  /** All bits but the `k` lowest. */
  function High(k: nat): bv32 {
    if k == 0 then 0xffffffff else High(k - 1) << 1
  }

  function Bit(j: nat): bv32 {
    if j == 0 then 1 else Bit(j - 1) << 1
  }

  lemma {:induction false} HighHas(k: nat, j: nat)
    requires k <= j
    ensures High(k) & Bit(j) == Bit(j)
  {
    if k > 0 {
      HighHas(k - 1, j - 1);
    }
  }

  lemma BitEnds()
    ensures Bit(15) == 0x8000 && Bit(31) == 0x80000000
  {
    assert Bit(8) == 0x100;
    assert Bit(16) == 0x10000;
    assert Bit(24) == 0x1000000;
  }

  lemma HighHasTop(code: Code, k: nat)
    requires k < Width(code)
    ensures High(k) & Top(code) == Top(code)
  {
    BitEnds();
    HighHas(k, Width(code) - 1);
  }

  /** One bit back: registers that agree above some bit after the step agree above the next before it. */
  lemma EnterBack(code: Code, s: bv32, t: bv32, x: bool, y: bool, high: bv32)
    requires Fits(code, s) && Fits(code, t) && high & Top(code) == Top(code)
    requires (Enter(code, s, x) ^ Enter(code, t, y)) & high == 0
    ensures (s ^ t) & (high << 1) == 0
    ensures s == t ==> x == y
  {
    match code
    case Fcs16 =>
    case Fcs32 =>
    case Crc32c =>
  }

  /** Two registers agree above their `k` low bits. */
  predicate Agree(s: bv32, t: bv32, k: nat) {
    (s ^ t) & High(k) == 0
  }

  lemma AgreeBack(code: Code, s: bv32, t: bv32, x: bool, y: bool, k: nat)
    requires k < Width(code) && Fits(code, s) && Fits(code, t)
    requires Agree(Enter(code, s, x), Enter(code, t, y), k)
    ensures Agree(s, t, k + 1)
    ensures s == t ==> x == y
  {
    HighHasTop(code, k);
    EnterBack(code, s, t, x, y, High(k));
  }

  lemma AgreeEqual(s: bv32)
    ensures Agree(s, s, 0)
  {}

  // The induction is done for any register and any step, so that it need not look into words.

  function Run<T>(step: (T, bool) -> T, c: T, bits: seq<bool>): T
    decreases |bits|
  {
    if bits == [] then c else Run(step, step(c, bits[0]), bits[1..])
  }

  lemma {:induction false} RunBack<T(!new)>(step: (T, bool) -> T, rel: (T, T, nat) -> bool, width: nat,
                                            s: T, t: T, x: seq<bool>, y: seq<bool>)
    requires |x| == |y| <= width
    requires forall u :: rel(u, u, 0)
    requires forall u, v, a, b, k: nat :: k < width && rel(step(u, a), step(v, b), k) ==> rel(u, v, k + 1)
    requires Run(step, s, x) == Run(step, t, y)
    ensures rel(s, t, |x|)
    decreases |x|
  {
    if x != [] {
      RunBack(step, rel, width, step(s, x[0]), step(t, y[0]), x[1..], y[1..]);
    }
  }

  function Stepper(code: Code): (bv32, bool) -> bv32 {
    (c, bit) => Enter(code, c, bit)
  }

  function Agreement(code: Code): (bv32, bv32, nat) -> bool {
    (u: bv32, v: bv32, k: nat) => Fits(code, u) && Fits(code, v) ==> Agree(u, v, k)
  }

  lemma {:induction false} RunDivides(code: Code, c: bv32, bits: seq<bool>)
    ensures Run(Stepper(code), c, bits) == Divide(code, c, bits)
    decreases |bits|
  {
    if bits != [] {
      RunDivides(code, Enter(code, c, bits[0]), bits[1..]);
    }
  }

  lemma StepAgreed(code: Code, u: bv32, v: bv32, a: bool, b: bool, k: nat)
    requires k < Width(code)
    ensures Agreement(code)(Stepper(code)(u, a), Stepper(code)(v, b), k) ==> Agreement(code)(u, v, k + 1)
  {
    if Fits(code, u) && Fits(code, v) {
      EnterFits(code, u, a);
      EnterFits(code, v, b);
      if Agree(Enter(code, u, a), Enter(code, v, b), k) {
        AgreeBack(code, u, v, a, b, k);
      }
    }
  }

  lemma StepsAgreed(code: Code)
    ensures forall u, v, a, b, k: nat ::
      k < Width(code) && Agreement(code)(Stepper(code)(u, a), Stepper(code)(v, b), k) ==> Agreement(code)(u, v, k + 1)
  {
    var step, rel := Stepper(code), Agreement(code);
    forall u, v, a, b, k: nat | k < Width(code)
      ensures rel(step(u, a), step(v, b), k) ==> rel(u, v, k + 1)
    {
      StepAgreed(code, u, v, a, b, k);
    }
  }

  lemma EqualAgreed(code: Code)
    ensures forall u :: Agreement(code)(u, u, 0)
  {
    forall u
      ensures Agreement(code)(u, u, 0)
    {
      AgreeEqual(u);
    }
  }

  /** Registers that end equal after `|x|` bits agreed above their `|x|` low bits before. */
  lemma DivideBack(code: Code, s: bv32, t: bv32, x: seq<bool>, y: seq<bool>)
    requires |x| == |y| <= Width(code)
    requires Fits(code, s) && Fits(code, t)
    requires Divide(code, s, x) == Divide(code, t, y)
    ensures Agree(s, t, |x|)
  {
    RunDivides(code, s, x);
    RunDivides(code, t, y);
    StepsAgreed(code);
    EqualAgreed(code);
    RunBack(Stepper(code), Agreement(code), Width(code), s, t, x, y);
    assert Agreement(code)(s, t, |x|);
  }

  lemma StepFits(code: Code, s: bv32, bit: bool, u: bv32)
    requires Fits(code, s) && u == Enter(code, s, bit)
    ensures Fits(code, u)
  {
    EnterFits(code, s, bit);
  }

  lemma StepBack(code: Code, s: bv32, t: bv32, x: bool, y: bool, u: bv32, v: bv32, k: nat)
    requires k < Width(code) && Fits(code, s) && Fits(code, t)
    requires u == Enter(code, s, x) && v == Enter(code, t, y) && Agree(u, v, k)
    ensures Agree(s, t, k + 1)
    ensures s == t ==> x == y
  {
    AgreeBack(code, s, t, x, y, k);
  }

  /** From one register, different strings no longer than the width leave different remainders. */
  lemma {:induction false} BurstStart(code: Code, s: bv32, x: seq<bool>, y: seq<bool>)
    requires |x| == |y| <= Width(code)
    requires Fits(code, s)
    requires Divide(code, s, x) == Divide(code, s, y)
    ensures x == y
    decreases |x|
  {
    if x != [] {
      BurstHead(code, s, x, y);
      EnterFits(code, s, x[0]);
      BurstStart(code, Enter(code, s, x[0]), x[1..], y[1..]);
      assert x == [x[0]] + x[1..] && y == [y[0]] + y[1..];
    }
  }

  lemma BurstHead(code: Code, s: bv32, x: seq<bool>, y: seq<bool>)
    requires 0 < |x| == |y| <= Width(code)
    requires Fits(code, s)
    requires Divide(code, s, x) == Divide(code, s, y)
    ensures x[0] == y[0]
  {
    HeadBack(code, s, x, y, Enter(code, s, x[0]), Enter(code, s, y[0]));
  }

  lemma HeadBack(code: Code, s: bv32, x: seq<bool>, y: seq<bool>, u: bv32, v: bv32)
    requires 0 < |x| == |y| <= Width(code) && Fits(code, s)
    requires u == Enter(code, s, x[0]) && v == Enter(code, s, y[0])
    requires Divide(code, u, x[1..]) == Divide(code, v, y[1..])
    ensures x[0] == y[0]
  {
    StepFits(code, s, x[0], u);
    StepFits(code, s, y[0], v);
    StepsAgree(code, u, v, x, y);
    StepBack(code, s, s, x[0], y[0], u, v, |x| - 1);
  }

  lemma StepsAgree(code: Code, u: bv32, v: bv32, x: seq<bool>, y: seq<bool>)
    requires 0 < |x| == |y| <= Width(code) && Fits(code, u) && Fits(code, v)
    requires Divide(code, u, x[1..]) == Divide(code, v, y[1..])
    ensures Agree(u, v, |x| - 1)
  {
    DivideBack(code, u, v, x[1..], y[1..]);
  }

  /** Division by equal bits loses nothing: a step can be undone. */
  lemma {:induction false} DivideInjective(code: Code, s: bv32, t: bv32, z: seq<bool>)
    requires Fits(code, s) && Fits(code, t)
    requires Divide(code, s, z) == Divide(code, t, z)
    ensures s == t
    decreases |z|
  {
    if z != [] {
      EnterFits(code, s, z[0]);
      EnterFits(code, t, z[0]);
      DivideInjective(code, Enter(code, s, z[0]), Enter(code, t, z[0]), z[1..]);
      EnterInjective(code, s, t, z[0]);
    }
  }

  lemma EnterInjective(code: Code, s: bv32, t: bv32, bit: bool)
    requires Fits(code, s) && Fits(code, t)
    requires Enter(code, s, bit) == Enter(code, t, bit)
    ensures s == t
  {
    match code
    case Fcs16 => Undo16(s, t, bit);
    case Fcs32 => Undo32(s, t, bit);
    case Crc32c => UndoC(s, t, bit);
  }

  lemma Undo16(s: bv32, t: bv32, bit: bool)
    requires Fits(Fcs16, s) && Fits(Fcs16, t)
    requires Enter(Fcs16, s, bit) == Enter(Fcs16, t, bit)
    ensures s == t
  {}

  lemma Undo32(s: bv32, t: bv32, bit: bool)
    requires Enter(Fcs32, s, bit) == Enter(Fcs32, t, bit)
    ensures s == t
  {}

  lemma UndoC(s: bv32, t: bv32, bit: bool)
    requires Enter(Crc32c, s, bit) == Enter(Crc32c, t, bit)
    ensures s == t
  {}

  /** Every burst of errors no longer than the check sequence is seen, wherever it starts. */
  lemma BurstDetected(code: Code, before: seq<bool>, x: seq<bool>, y: seq<bool>, after: seq<bool>)
    requires |x| == |y| <= Width(code)
    requires Divide(code, Full(code), before + x + after) == Divide(code, Full(code), before + y + after)
    ensures x == y
  {
    var s := Divide(code, Full(code), before);
    DivideFits(code, Full(code), before);
    forall w | w in {x, y}
      ensures Divide(code, Full(code), before + w + after) == Divide(code, Divide(code, s, w), after)
    {
      DivideConcat(code, Full(code), before + w, after);
      DivideConcat(code, Full(code), before, w);
    }
    DivideFits(code, s, x);
    DivideFits(code, s, y);
    DivideInjective(code, Divide(code, s, x), Divide(code, s, y), after);
    BurstStart(code, s, x, y);
  }

  // ----- Parity: polynomials with an even number of terms see every odd number of errors -----

  /** Whether a word has an odd number of ones. */
  predicate OddWord(c: bv32)
    decreases c
  {
    c != 0 && (c & 1 == 1) != OddWord(c >> 1)
  }

  lemma {:induction false} OddXor(a: bv32, b: bv32)
    ensures OddWord(a ^ b) == (OddWord(a) != OddWord(b))
    decreases a, b
  {
    if a != 0 || b != 0 {
      OddXor(a >> 1, b >> 1);
      OddXorStep(a, b);
    }
  }

  lemma OddXorStep(a: bv32, b: bv32)
    requires OddWord((a >> 1) ^ (b >> 1)) == (OddWord(a >> 1) != OddWord(b >> 1))
    ensures OddWord(a ^ b) == (OddWord(a) != OddWord(b))
  {
    XorShift(a, b);
  }

  lemma XorShift(a: bv32, b: bv32)
    ensures (a ^ b) >> 1 == (a >> 1) ^ (b >> 1)
    ensures ((a ^ b) & 1 == 1) == ((a & 1 == 1) != (b & 1 == 1))
    ensures a ^ b == 0 ==> a == b
  {}

  predicate OddBits(bits: seq<bool>) {
    bits != [] && bits[0] != OddBits(bits[1..])
  }

  lemma OddByHalf(c: bv32)
    ensures OddWord(c) == ((c & 1 == 1) != OddWord(c >> 1))
  {}

  lemma Poly16Parity()
    ensures OddWord(0x8408)
  {
    OddByHalf(0x8408); OddByHalf(0x4204); OddByHalf(0x2102); OddByHalf(0x1081);
    OddByHalf(0x840); OddByHalf(0x420); OddByHalf(0x210); OddByHalf(0x108);
    OddByHalf(0x84); OddByHalf(0x42); OddByHalf(0x21); OddByHalf(0x10);
    OddByHalf(0x8); OddByHalf(0x4); OddByHalf(0x2);
    assert OddWord(1);
  }

  lemma PolyCParity()
    ensures OddWord(0x82f63b78)
  {
    OddByHalf(0x82f63b78); OddByHalf(0x417b1dbc); OddByHalf(0x20bd8ede); OddByHalf(0x105ec76f);
    OddByHalf(0x82f63b7); OddByHalf(0x417b1db); OddByHalf(0x20bd8ed); OddByHalf(0x105ec76);
    OddByHalf(0x82f63b); OddByHalf(0x417b1d); OddByHalf(0x20bd8e); OddByHalf(0x105ec7);
    OddByHalf(0x82f63); OddByHalf(0x417b1); OddByHalf(0x20bd8); OddByHalf(0x105ec);
    OddByHalf(0x82f6); OddByHalf(0x417b); OddByHalf(0x20bd); OddByHalf(0x105e);
    OddByHalf(0x82f); OddByHalf(0x417); OddByHalf(0x20b); OddByHalf(0x105);
    OddByHalf(0x82); OddByHalf(0x41); OddByHalf(0x20); OddByHalf(0x10);
    OddByHalf(0x8); OddByHalf(0x4); OddByHalf(0x2);
    assert OddWord(1);
  }

  lemma ShiftParity(code: Code, u: bv32)
    requires code != Fcs32
    ensures OddWord(BitStep(code, u)) == OddWord(u)
  {
    Poly16Parity();
    PolyCParity();
    OddXor(u >> 1, Poly(code));
  }

  lemma FlipParity(c: bv32)
    ensures OddWord(c ^ 1) == !OddWord(c)
  {
    OddXor(c, 1);
    assert OddWord(1);
  }

  lemma EnterParity(code: Code, c: bv32, bit: bool)
    requires code != Fcs32
    ensures OddWord(Enter(code, c, bit)) == (OddWord(c) != bit)
  {
    FlipParity(c);
    ShiftParity(code, if bit then c ^ 1 else c);
  }

  lemma {:induction false} DivideParity(code: Code, c: bv32, bits: seq<bool>)
    requires code != Fcs32
    ensures OddWord(Divide(code, c, bits)) == (OddWord(c) != OddBits(bits))
    decreases |bits|
  {
    if bits != [] {
      EnterParity(code, c, bits[0]);
      DivideParity(code, Enter(code, c, bits[0]), bits[1..]);
    }
  }

  /** The number of places in which two strings differ, modulo two. */
  predicate OddDifference(x: seq<bool>, y: seq<bool>)
    requires |x| == |y|
  {
    x != [] && (x[0] != y[0]) != OddDifference(x[1..], y[1..])
  }

  lemma {:induction false} DifferenceParity(x: seq<bool>, y: seq<bool>)
    requires |x| == |y|
    ensures OddDifference(x, y) == (OddBits(x) != OddBits(y))
  {
    if x != [] {
      DifferenceParity(x[1..], y[1..]);
    }
  }

  /**
    An odd number of wrong bits never goes unseen by fcs16 and crc32c (the fcs32 polynomial has an odd number
    of terms).
   */
  lemma OddErrorsDetected(code: Code, x: seq<bool>, y: seq<bool>)
    requires code != Fcs32 && |x| == |y| && OddDifference(x, y)
    ensures Divide(code, Full(code), x) != Divide(code, Full(code), y)
  {
    DifferenceParity(x, y);
    DivideParity(code, Full(code), x);
    DivideParity(code, Full(code), y);
  }
}
