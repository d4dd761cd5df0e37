/** Powers of two, and quotients and remainders by a number that is not known. */
module Arithmetic {
  function Pow2(n: nat): (p: nat)
    ensures p > 0
  {
    if n == 0 then 1 else 2 * Pow2(n - 1)
  }

  lemma {:induction false} Pow2Join(m: nat, n: nat)
    ensures Pow2(m + n) == Pow2(m) * Pow2(n)
    decreases m
  {
    if m > 0 {
      Pow2Join(m - 1, n);
    }
  }

  lemma TimesGrows(x: nat, y: nat, p: nat)
    requires x <= y
    ensures x * p <= y * p
  {}

  lemma DivMod(v: nat, q: nat, p: nat, r: nat)
    requires v == q * p + r && r < p
    ensures v / p == q && v % p == r
  {
    var d, m := v / p, v % p;
    assert v == d * p + m;
    if d < q {
      TimesGrows(d + 1, q, p);
    } else if d > q {
      TimesGrows(q + 1, d, p);
    }
  }

  lemma QuotientBelow(w: nat, q: nat, p: nat)
    requires w < q * p && p > 0
    ensures 0 <= w / p < q
  {
    if w / p >= q {
      TimesGrows(q, w / p, p);
    }
  }
}
