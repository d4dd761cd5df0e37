/**
  What a hash table (`lch/util/hashtbl.c`) keeps, as one list of entries in the order of their insertion, and
  the hash functions of `lch/util/hash.h`.
 */
module HashModel {
  import opened Arithmetic

  datatype Option<T> = None | Some(value: T)

  datatype Entry<K, V> = Entry(key: K, value: V)

  // ----- Lists of entries -----

  /** The entries that satisfy `p`, in their order. */
  function Keep<T>(s: seq<T>, p: T -> bool): seq<T> {
    if s == [] then [] else
      Keep(s[..|s| - 1], p) + (if p(s[|s| - 1]) then [s[|s| - 1]] else [])
  }

  lemma {:induction false} KeepJoin<T>(a: seq<T>, b: seq<T>, p: T -> bool)
    ensures Keep(a + b, p) == Keep(a, p) + Keep(b, p)
    decreases |b|
  {
    if b == [] {
      assert a + b == a;
    } else {
      var front := b[..|b| - 1];
      assert (a + b)[..|a + b| - 1] == a + front;
      KeepJoin(a, front, p);
    }
  }

  lemma KeepOne<T>(x: T, p: T -> bool)
    ensures Keep([x], p) == if p(x) then [x] else []
  {
    assert [x][..0] == [];
  }

  lemma KeepNext<T>(s: seq<T>, x: T, p: T -> bool)
    ensures Keep(s + [x], p) == if p(x) then Keep(s, p) + [x] else Keep(s, p)
  {
    KeepJoin(s, [x], p);
    KeepOne(x, p);
  }

  lemma {:induction false} KeepMembers<T>(s: seq<T>, p: T -> bool)
    ensures forall x :: x in Keep(s, p) ==> x in s && p(x)
    ensures forall x :: x in s && p(x) ==> x in Keep(s, p)
  {
    if s != [] {
      var front, last := s[..|s| - 1], s[|s| - 1];
      KeepMembers(front, p);
      assert s == front + [last];
    }
  }

  /** Keeping twice keeps what satisfies both. */
  lemma {:induction false} KeepTwice<T>(s: seq<T>, p: T -> bool, q: T -> bool, both: T -> bool)
    requires forall x :: x in s ==> (both(x) <==> p(x) && q(x))
    ensures Keep(Keep(s, p), q) == Keep(s, both)
  {
    if s != [] {
      var front, last := s[..|s| - 1], s[|s| - 1];
      assert s == front + [last];
      KeepTwice(front, p, q, both);
      KeepNext(front, last, p);
      KeepNext(front, last, both);
      KeepNext(Keep(front, p), last, q);
    }
  }

  lemma {:induction false} KeepAll<T>(s: seq<T>, p: T -> bool)
    requires forall x :: x in s ==> p(x)
    ensures Keep(s, p) == s
  {
    if s != [] {
      KeepAll(s[..|s| - 1], p);
      assert s == s[..|s| - 1] + [s[|s| - 1]];
    }
  }

  lemma {:induction false} KeepSame<T>(s: seq<T>, p: T -> bool, q: T -> bool)
    requires forall x :: x in s ==> (p(x) <==> q(x))
    ensures Keep(s, p) == Keep(s, q)
  {
    if s != [] {
      KeepSame(s[..|s| - 1], p, q);
      assert s[|s| - 1] in s;
    }
  }

  lemma {:induction false} KeepNone<T>(s: seq<T>, p: T -> bool)
    requires forall x :: x in s ==> !p(x)
    ensures Keep(s, p) == []
  {
    if s != [] {
      KeepNone(s[..|s| - 1], p);
    }
  }

  lemma {:induction false} KeepSplits<T>(s: seq<T>, p: T -> bool, q: T -> bool, either: T -> bool)
    requires forall x :: x in s ==> (either(x) <==> p(x) || q(x)) && !(p(x) && q(x))
    ensures multiset(Keep(s, p)) + multiset(Keep(s, q)) == multiset(Keep(s, either))
  {
    if s != [] {
      KeepSplits(s[..|s| - 1], p, q, either);
    }
  }

  /** The place of the first that satisfies `p`, or the length. */
  function First<T>(s: seq<T>, p: T -> bool): (i: nat)
    ensures i <= |s| && (i < |s| ==> p(s[i])) && forall j :: 0 <= j < i ==> !p(s[j])
  {
    if s == [] then 0 else if p(s[0]) then 0 else First(s[1..], p) + 1
  }

  lemma FirstIs<T>(s: seq<T>, p: T -> bool, i: nat)
    requires i <= |s| && (i < |s| ==> p(s[i])) && forall j :: 0 <= j < i ==> !p(s[j])
    ensures First(s, p) == i
  {
    var f := First(s, p);
  }

  function Without<T>(s: seq<T>, i: nat): seq<T>
    requires i < |s|
  {
    s[..i] + s[i + 1..]
  }

  /** The list without the first that satisfies `p`. */
  function WithoutFirst<T>(s: seq<T>, p: T -> bool): seq<T> {
    var i := First(s, p);
    if i < |s| then Without(s, i) else s
  }

  /** The first of the kept entries that satisfies `q` is the first entry that satisfies both. */
  lemma FirstKept<T>(s: seq<T>, p: T -> bool, q: T -> bool, both: T -> bool)
    requires forall x :: x in s ==> (both(x) <==> p(x) && q(x))
    ensures var i, k := First(s, both), First(Keep(s, p), q);
      && (i < |s| <==> k < |Keep(s, p)|)
      && (i < |s| ==> s[i] == Keep(s, p)[k] && Keep(Without(s, i), p) == Without(Keep(s, p), k))
  {
    var i, c := First(s, both), Keep(s, p);
    if i == |s| {
      KeepMembers(s, p);
      FirstIs(c, q, |c|);
    } else {
      KeptParts(s, i, p);
      NoneBefore(s, i, p, q, both);
      FirstIs(c, q, |Keep(s[..i], p)|);
      KeepJoin(s[..i], s[i + 1..], p);
      CutOut(Keep(s[..i], p), s[i], Keep(s[i + 1..], p));
    }
  }

  lemma NoneBefore<T>(s: seq<T>, i: nat, p: T -> bool, q: T -> bool, both: T -> bool)
    requires i <= |s| && forall j :: 0 <= j < i ==> !both(s[j])
    requires forall x :: x in s ==> (both(x) <==> p(x) && q(x))
    ensures forall k :: 0 <= k < |Keep(s[..i], p)| ==> !q(Keep(s[..i], p)[k])
  {
    KeepMembers(s[..i], p);
    forall k | 0 <= k < |Keep(s[..i], p)|
      ensures !q(Keep(s[..i], p)[k])
    {
      var x := Keep(s[..i], p)[k];
      assert x in Keep(s[..i], p);
      var j :| 0 <= j < i && s[..i][j] == x;
      assert !both(s[j]);
    }
  }

  lemma KeptParts<T>(s: seq<T>, i: nat, p: T -> bool)
    requires i < |s| && p(s[i])
    ensures Keep(s, p) == Keep(s[..i], p) + [s[i]] + Keep(s[i + 1..], p)
  {
    assert s == s[..i] + [s[i]] + s[i + 1..];
    KeepJoin(s[..i] + [s[i]], s[i + 1..], p);
    KeepNext(s[..i], s[i], p);
  }

  lemma CutOut<T>(a: seq<T>, x: T, b: seq<T>)
    ensures Without(a + [x] + b, |a|) == a + b
  {}

  /** An entry outside the kept ones leaves them as they are. */
  lemma KeepWithout<T>(s: seq<T>, i: nat, p: T -> bool)
    requires i < |s| && !p(s[i])
    ensures Keep(Without(s, i), p) == Keep(s, p)
  {
    assert s == s[..i] + [s[i]] + s[i + 1..];
    KeepJoin(s[..i] + [s[i]], s[i + 1..], p);
    KeepNext(s[..i], s[i], p);
    KeepJoin(s[..i], s[i + 1..], p);
  }

  // ----- Buckets -----

  /** In bucket `b` by the hash `h`. */
  ghost function InBucket<K, V>(h: K -> nat, b: nat): Entry<K, V> -> bool {
    (e: Entry<K, V>) => h(e.key) == b
  }

  ghost function Below<K, V>(h: K -> nat, n: nat): Entry<K, V> -> bool {
    (e: Entry<K, V>) => h(e.key) < n
  }

  /** The first `n` buckets, one after the other. */
  ghost function InBuckets<K, V>(log: seq<Entry<K, V>>, h: K -> nat, n: nat): seq<Entry<K, V>> {
    if n == 0 then [] else InBuckets(log, h, n - 1) + Keep(log, InBucket(h, n - 1))
  }

  /** Bucket by bucket, every entry comes once. */
  lemma {:induction false} BucketsHoldAll<K, V>(log: seq<Entry<K, V>>, h: K -> nat, n: nat)
    ensures multiset(InBuckets(log, h, n)) == multiset(Keep(log, Below(h, n)))
  {
    if n == 0 {
      forall e: Entry<K, V> | e in log
        ensures !Below<K, V>(h, n)(e)
      {
        assert h(e.key) >= 0;
      }
      KeepNone(log, Below(h, n));
    } else {
      BucketsHoldAll(log, h, n - 1);
      KeepSplits(log, Below(h, n - 1), InBucket(h, n - 1), Below(h, n));
    }
  }

  lemma EveryEntryOnce<K, V>(log: seq<Entry<K, V>>, h: K -> nat, n: nat)
    requires forall e :: e in log ==> h(e.key) < n
    ensures multiset(InBuckets(log, h, n)) == multiset(log) && |InBuckets(log, h, n)| == |log|
  {
    BucketsHoldAll(log, h, n);
    KeepAll(log, Below(h, n));
    assert |multiset(InBuckets(log, h, n))| == |InBuckets(log, h, n)|;
    assert |multiset(log)| == |log|;
  }

  // ----- hash_long -----

  const WORD := 0x1_0000_0000_0000_0000

  const GOLDEN_RATIO_PRIME := 0x9e37_ffff_fffc_0001

  lemma Pow2Word()
    ensures Pow2(64) == WORD
  {
    assert Pow2(4) == 16;
    Pow2Join(4, 4);
    Pow2Join(8, 8);
    Pow2Join(16, 16);
    Pow2Join(32, 32);
  }

  /** `v * c` in an unsigned long. */
  function Times(v: nat, c: int): (r: nat)
    ensures r < WORD
  {
    v * c % WORD
  }

  lemma ModIs(x: int, q: int, r: nat)
    requires x == q * WORD + r && r < WORD
    ensures x % WORD == r
  {}

  lemma ModSame(x: int, y: int, k: int)
    requires x == y + k * WORD
    ensures x % WORD == y % WORD
  {
    ModIs(x, y / WORD + k, y % WORD);
  }

  lemma TimesShift(v: nat, c: int, s: nat)
    ensures Times(v, c) * s % WORD == Times(v, c * s)
  {
    var q := v * c / WORD;
    Scale(v, c, s, q, Times(v, c));
    ModSame(v * (c * s), Times(v, c) * s, q * s);
  }

  lemma Scale(v: nat, c: int, s: nat, q: int, r: int)
    requires v * c == q * WORD + r
    ensures v * (c * s) == r * s + q * s * WORD
  {
    assert v * (c * s) == v * c * s;
  }

  lemma TimesAdd(v: nat, a: int, b: int)
    ensures (Times(v, a) + Times(v, b)) % WORD == Times(v, a + b)
    ensures (Times(v, a) - Times(v, b)) % WORD == Times(v, a - b)
  {
    var p, q := v * a / WORD, v * b / WORD;
    assert v * (a + b) == v * a + v * b;
    assert v * (a - b) == v * a - v * b;
    ModSame(v * (a + b), Times(v, a) + Times(v, b), p + q);
    ModSame(v * (a - b), Times(v, a) - Times(v, b), p - q);
  }

  /** The high bits of a word, as an index. */
  lemma HighBits(w: nat, bits: nat)
    requires w < WORD && bits <= 64
    ensures 0 <= w / Pow2(64 - bits) < Pow2(bits)
  {
    Pow2Word();
    Pow2Join(bits, 64 - bits);
    QuotientBelow(w, Pow2(bits), Pow2(64 - bits));
  }

  /**
    `n <<= s` for `power` two to the `s`, then `n` is added to the hash or taken from it; `c` and `k` are what they
    are multiples by.
   */
  method Mix(ghost val: nat, hash: nat, n: nat, power: nat, add: bool,
             ghost c: int, ghost k: nat, ghost c': int, ghost k': nat)
    returns (hash': nat, n': nat)
    requires hash == Times(val, c) && n == Times(val, k)
    requires k' == k * power && c' == if add then c + k' else c - k'
    ensures n' == Times(val, k') && hash' == Times(val, c')
  {
    TimesShift(val, k, power);
    TimesAdd(val, c, k');
    n' := n * power % WORD;
    hash' := if add then (hash + n') % WORD else (hash - n') % WORD;
  }

  // What `n` and the hash are multiples by after each of the six shifts.
  const K1 := 0x4_0000
  const K2 := 0x8_0000_0000_0000
  const K3 := 0x40_0000_0000_0000
  const K4 := 0x200_0000_0000_0000
  const K5 := 0x2000_0000_0000_0000
  const K6 := 0x8000_0000_0000_0000
  const C1 := 1 - K1
  const C2 := C1 - K2
  const C3 := C2 + K3
  const C4 := C3 - K4
  const C5 := C4 + K5

  /**
    `hash_long`, the form of shifts: the product with the prime in an unsigned long, of which the high bits are
    taken.  They are always an index below two to the power of `bits`.
   */
  method HashLong(val: nat, bits: nat) returns (h: nat)
    requires val < WORD && 1 <= bits <= 64
    ensures h == val * GOLDEN_RATIO_PRIME % WORD / Pow2(64 - bits)
    ensures h < Pow2(bits)
  {
    var hash := Mixed(val);
    Pow2Word();
    HighBits(hash, bits);
    h := hash / Pow2(64 - bits);
  }

  /** The six shifts multiply by the prime. */
  method Mixed(val: nat) returns (hash: nat)
    requires val < WORD
    ensures hash == Times(val, GOLDEN_RATIO_PRIME)
  {
    One(val);
    var n := val;
    hash := val;
    hash, n := Mix(val, hash, n, 0x4_0000, false, 1, 1, C1, K1);
    hash, n := Mix(val, hash, n, 0x2_0000_0000, false, C1, K1, C2, K2);
    hash, n := Mix(val, hash, n, 8, true, C2, K2, C3, K3);
    hash, n := Mix(val, hash, n, 8, false, C3, K3, C4, K4);
    hash, n := Mix(val, hash, n, 16, true, C4, K4, C5, K5);
    hash, n := Mix(val, hash, n, 4, true, C5, K5, GOLDEN_RATIO_PRIME, K6);
  }

  lemma One(val: nat)
    requires val < WORD
    ensures Times(val, 1) == val
  {}
}
