/**
  Index arithmetic shared by the rings of `lch/util/pfifo.c` and `lch/util/fifo.c`: one slot always
  stays empty, so equal indices mean "empty".
 */
module Ring {
  function Next(i: nat, size: nat): nat
    requires i < size
  {
    if i + 1 == size then 0 else i + 1
  }

  function Prev(i: nat, size: nat): nat
    requires i < size
  {
    if i == 0 then size - 1 else i - 1
  }

  /** The index `k` places after `r`. */
  function At(r: nat, k: nat, size: nat): nat
    requires r < size && k <= size
  {
    if r + k < size then r + k else r + k - size
  }

  /** The number of elements between the indices. */
  function Count(r: nat, w: nat, size: nat): (n: nat)
    requires r < size && w < size
    ensures n < size && At(r, n, size) == w
  {
    if r <= w then w - r else size - (r - w)
  }

  /** The elements held, oldest first. */
  function Held<T>(elements: seq<T>, r: nat, n: nat): (q: seq<T>)
    requires r < |elements| && n <= |elements|
    ensures |q| == n
  {
    seq(n, k requires 0 <= k < n => elements[At(r, k, |elements|)])
  }

  lemma CountUnique(r: nat, k: nat, size: nat)
    requires r < size && k < size
    ensures Count(r, At(r, k, size), size) == k
  {}

  /** Different places in the ring are different slots. */
  lemma AtInjective(r: nat, j: nat, k: nat, size: nat)
    requires r < size && j < size && k < size
    ensures At(r, j, size) == At(r, k, size) <==> j == k
  {}

  lemma AtShift(r: nat, j: nat, k: nat, size: nat)
    requires r < size && j + k < size
    ensures At(At(r, j, size), k, size) == At(r, j + k, size)
  {}

  /** Taking from the front moves r; what is left keeps its place. */
  lemma CountShift(r: nat, w: nat, j: nat, size: nat)
    requires r < size && w < size && j <= Count(r, w, size)
    ensures Count(At(r, j, size), w, size) == Count(r, w, size) - j
  {}
}
