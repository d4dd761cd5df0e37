/**
  The chained hash table of `lch/util/hashtbl.c`: it answers like the list of its entries in the order of their
  insertion.
 */
module HashTable {
  import opened Arithmetic
  import opened HashModel

  /** The result of `cmp_func`: zero for equal keys. */
  ghost function EqualTo<K, V>(cmp: (K, K) -> int, key: K): Entry<K, V> -> bool {
    (e: Entry<K, V>) => cmp(key, e.key) == 0
  }

  /** Equal to the key and in its bucket: what a search can meet. */
  ghost function Meets<K, V>(h: K -> nat, cmp: (K, K) -> int, key: K): Entry<K, V> -> bool {
    (e: Entry<K, V>) => h(e.key) == h(key) && cmp(key, e.key) == 0
  }

  ghost function Not<T>(p: T -> bool): T -> bool {
    x => !p(x)
  }

  /** Equal keys have equal hashes. */
  ghost predicate Agree<K(!new)>(h: K -> nat, cmp: (K, K) -> int) {
    forall a: K, b: K :: cmp(a, b) == 0 ==> h(a) == h(b)
  }

  /** For a comparison that agrees with the hash, a search meets every entry equal to the key. */
  lemma MeetsEqual<K(!new), V>(log: seq<Entry<K, V>>, h: K -> nat, cmp: (K, K) -> int, key: K)
    requires Agree(h, cmp)
    ensures Keep(log, Meets(h, cmp, key)) == Keep(log, EqualTo(cmp, key))
    ensures WithoutFirst(log, Meets(h, cmp, key)) == WithoutFirst(log, EqualTo(cmp, key))
  {
    var p: Entry<K, V> -> bool := EqualTo(cmp, key);
    var q: Entry<K, V> -> bool := Meets(h, cmp, key);
    forall e: Entry<K, V>
      ensures p(e) <==> q(e)
    {
      if cmp(key, e.key) == 0 {
        assert h(key) == h(e.key);
      }
    }
    KeepSame(log, q, p);
    FirstIs(log, q, First(log, p));
  }

  /** Otherwise it misses an entry of a table that holds nothing else. */
  lemma MeetsNothing<K, V>(h: K -> nat, cmp: (K, K) -> int, a: K, b: K, v: V)
    requires cmp(a, b) == 0 && h(a) != h(b)
    ensures var log := [Entry(b, v)];
      Keep(log, Meets(h, cmp, a)) == [] && Keep(log, EqualTo(cmp, a)) == log
  {
    KeepOne(Entry(b, v), Meets(h, cmp, a));
    KeepOne(Entry(b, v), EqualTo(cmp, a));
  }

  class Table<K(!new), V> {
    const order: nat
    const hash: (K, nat) -> nat
    const cmp: (K, K) -> int
    /** The chains of the buckets, oldest entry first. */
    const heads: array<seq<Entry<K, V>>>
    var cnt: nat
    var numAccess: nat
    var numAccessCompare: nat

    /** The entries of the table in the order of their insertion. */
    ghost var log: seq<Entry<K, V>>

    ghost function Hash(): K -> nat {
      (key: K) => hash(key, order)
    }

    ghost predicate Valid()
      reads this, heads
    {
      && heads.Length == Pow2(order)
      && (forall e :: e in log ==> hash(e.key, order) < heads.Length)
      && (forall b: nat :: b < heads.Length ==> heads[b] == Keep(log, InBucket(Hash(), b)))
      && cnt == |log|
    }

    /** `hashtbl_open`: a power of two of empty buckets, the least that is not below `buckets`. */
    constructor (buckets: int, hash: (K, nat) -> nat, cmp: (K, K) -> int)
      ensures Valid() && fresh(heads) && log == [] && this.hash == hash && this.cmp == cmp
      ensures buckets <= heads.Length && (order > 0 ==> Pow2(order - 1) < buckets)
      ensures numAccess == 0 && numAccessCompare == 0
    {
      var i: nat, bits: nat := 1, 0;
      while i < buckets
        invariant i == Pow2(bits) && (bits > 0 ==> Pow2(bits - 1) < buckets)
        decreases buckets - i
      {
        i, bits := 2 * i, bits + 1;
      }
      order := bits;
      this.hash, this.cmp := hash, cmp;
      heads := new seq<Entry<K, V>>[i](_ => []);
      cnt, numAccess, numAccessCompare := 0, 0, 0;
      log := [];
    }

    /** `do_hashtbl_find`: the entry number `nth`, oldest first, among those that the search meets. */
    method FindSeq(key: K, cmp: (K, K) -> int, nth: int) returns (value: Option<V>)
      requires Valid()
      modifies this`numAccess, this`numAccessCompare
      ensures Valid()
      ensures var met := Keep(log, Meets(Hash(), cmp, key));
        value == if 0 <= nth < |met| then Some(met[nth].value) else None
    {
      var bucket := hash(key, order);
      if bucket >= heads.Length {
        NoneMet(log, Hash(), cmp, key, heads.Length);
        return None;
      }
      ChainMet(log, Hash(), cmp, key);
      ghost var eq: Entry<K, V> -> bool := EqualTo(cmp, key);
      var chain := heads[bucket];
      if chain == [] {
        return None;
      }
      numAccess := numAccess + 1;
      var i, pos := 0, 0;
      while pos < |chain|
        invariant pos <= |chain| && i == |Keep(chain[..pos], eq)| && (0 <= nth ==> i <= nth)
      {
        numAccessCompare := numAccessCompare + 1;
        FoundNext(chain, pos, eq);
        if cmp(key, chain[pos].key) == 0 {
          if i == nth {
            return Some(chain[pos].value);
          }
          i := i + 1;
        }
        pos := pos + 1;
      }
      assert chain[..pos] == chain;
      value := None;
    }

    /** `hashtbl_insert`: the entry becomes the youngest; a hash outside the buckets is refused. */
    method Insert(key: K, value: V) returns (ret: int)
      requires Valid()
      modifies this`cnt, this`log, heads
      ensures Valid()
      ensures ret == if hash(key, order) < heads.Length then 0 else -1
      ensures log == if ret == 0 then old(log) + [Entry(key, value)] else old(log)
    {
      var bucket := hash(key, order);
      if bucket >= heads.Length {
        return -1;
      }
      var entry := Entry(key, value);
      forall b: nat | b < heads.Length
        ensures Keep(log + [entry], InBucket(Hash(), b)) ==
          if b == bucket then heads[b] + [entry] else heads[b]
      {
        KeepNext(log, entry, InBucket(Hash(), b));
      }
      heads[bucket] := heads[bucket] + [entry];
      log := log + [entry];
      cnt := cnt + 1;
      ret := 0;
    }

    /** `hashtbl_do_delete`: of the entries that the search meets, the oldest goes; it is what `release` is given. */
    method Delete(key: K) returns (ret: int, released: Option<Entry<K, V>>)
      requires Valid()
      modifies this`cnt, this`log, this`numAccess, this`numAccessCompare, heads
      ensures Valid()
      ensures var i := First(old(log), Meets(Hash(), cmp, key));
        if i < |old(log)| then
          ret == 0 && released == Some(old(log)[i]) && log == Without(old(log), i)
        else
          ret == -1 && released == None && log == old(log)
    {
      var bucket := hash(key, order);
      ghost var meets: Entry<K, V> -> bool := Meets(Hash(), cmp, key);
      if bucket >= heads.Length {
        NoneMet(log, Hash(), cmp, key, heads.Length);
        return -1, None;
      }
      ghost var eq: Entry<K, V> -> bool := EqualTo(cmp, key);
      var chain := heads[bucket];
      assert chain == Keep(log, InBucket(Hash(), bucket));
      assert bucket == Hash()(key);
      ChainFirst(log, Hash(), cmp, key, chain);
      if chain == [] {
        return -1, None;
      }
      numAccess := numAccess + 1;
      var pos := 0;
      while pos < |chain|
        invariant pos <= |chain| && forall j :: 0 <= j < pos ==> !eq(chain[j])
        invariant Valid() && log == old(log) && chain == heads[bucket]
      {
        numAccessCompare := numAccessCompare + 1;
        if cmp(key, chain[pos].key) == 0 {
          FirstIs(chain, eq, pos);
          released := Some(chain[pos]);
          RemoveFrom(bucket, pos, First(log, meets));
          return 0, released;
        }
        pos := pos + 1;
      }
      FirstIs(chain, eq, |chain|);
      ret, released := -1, None;
    }

    /** `list_del` of one entry, which is number `i` of all. */
    method RemoveFrom(bucket: nat, pos: nat, ghost i: nat)
      requires Valid() && bucket < heads.Length && pos < |heads[bucket]| && i < |log|
      requires log[i] == heads[bucket][pos] && InBucket<K, V>(Hash(), bucket)(log[i])
      requires Keep(Without(log, i), InBucket(Hash(), bucket)) == Without(heads[bucket], pos)
      modifies this`cnt, this`log, heads
      ensures Valid() && log == Without(old(log), i)
      ensures heads[bucket] == Without(old(heads[bucket]), pos)
      ensures forall b: nat :: b < heads.Length && b != bucket ==> heads[b] == old(heads[b])
    {
      forall b: nat | b < heads.Length && b != bucket
        ensures Keep(Without(log, i), InBucket(Hash(), b)) == heads[b]
      {
        KeepWithout(log, i, InBucket(Hash(), b));
      }
      heads[bucket] := Without(heads[bucket], pos);
      log := Without(log, i);
      cnt := cnt - 1;
    }

    /** `hashtbl_pop`: the oldest entry of the first bucket that holds one. */
    method Pop() returns (ret: int, popped: Option<Entry<K, V>>)
      requires Valid()
      modifies this`cnt, this`log, heads
      ensures Valid()
      ensures ret == -1 <==> old(log) == []
      ensures ret == -1 ==> popped == None && log == old(log)
      ensures ret != -1 ==> ret == 0 && exists i, b: nat ::
        && 0 <= i < |old(log)| && popped == Some(old(log)[i]) && log == Without(old(log), i)
        && First(old(log), InBucket(Hash(), b)) == i
        && forall e :: e in old(log) ==> b <= hash(e.key, order)
    {
      var b: nat := 0;
      while b < heads.Length
        invariant b <= heads.Length && Valid() && log == old(log)
        invariant forall e :: e in log ==> b <= hash(e.key, order)
      {
        ghost var here: Entry<K, V> -> bool := InBucket(Hash(), b);
        var chain := heads[b];
        assert chain == Keep(log, here);
        KeepMembers(log, here);
        if chain != [] {
          popped := Some(chain[0]);
          ghost var i := First(log, here);
          OldestOf(log, here);
          RemoveFrom(b, 0, i);
          return 0, popped;
        }
        b := b + 1;
      }
      KeepAll(log, Below(Hash(), b));
      KeepNone(log, Below(Hash(), b));
      ret, popped := -1, None;
    }

    /** `hashtbl_traverse`: the entries in the order in which `action` is given them. */
    method Traverse() returns (ret: nat, visited: seq<Entry<K, V>>)
      requires Valid()
      ensures visited == InBuckets(log, Hash(), heads.Length)
      ensures multiset(visited) == multiset(log) && ret == |log| == cnt
    {
      ret, visited := 0, [];
      var b: nat := 0;
      while b < heads.Length
        invariant b <= heads.Length && visited == InBuckets(log, Hash(), b) && ret == |visited|
      {
        visited := VisitChain(heads[b], visited);
        ret := ret + |heads[b]|;
        b := b + 1;
      }
      EveryEntryOnce(log, Hash(), heads.Length);
    }

    method VisitChain(chain: seq<Entry<K, V>>, before: seq<Entry<K, V>>) returns (visited: seq<Entry<K, V>>)
      ensures visited == before + chain
    {
      visited := before;
      var pos := 0;
      while pos < |chain|
        invariant pos <= |chain| && visited == before + chain[..pos]
      {
        TakeOne(before, chain, pos);
        visited := visited + [chain[pos]];
        pos := pos + 1;
      }
      assert chain[..pos] == chain;
    }

    /** `hashtbl_traverse_delete`: the entries that `okToDel` accepts go, each to `release` once; the others stay. */
    method TraverseDelete(okToDel: Entry<K, V> -> bool) returns (ret: nat, released: seq<Entry<K, V>>)
      requires Valid()
      modifies this`cnt, this`log, heads
      ensures Valid()
      ensures log == Keep(old(log), Not(okToDel)) && ret == |log|
      ensures multiset(released) == multiset(Keep(old(log), okToDel))
    {
      ghost var all := log;
      assert forall e :: e in all ==> Hash()(e.key) < heads.Length;
      ret, released := PurgeAll(okToDel);
      AfterBuckets(all, log, Hash(), heads.Length, okToDel, ret, released);
    }

    ghost predicate PurgedTo(all: seq<Entry<K, V>>, n: nat, ok: Entry<K, V> -> bool,
                             ret: nat, released: seq<Entry<K, V>>)
      reads this, heads
    {
      Valid() && Purged(all, log, Hash(), n, ok, ret, released)
    }

    method PurgeAll(okToDel: Entry<K, V> -> bool) returns (ret: nat, released: seq<Entry<K, V>>)
      requires Valid()
      modifies this`cnt, this`log, heads
      ensures PurgedTo(old(log), heads.Length, okToDel, ret, released)
    {
      ghost var all := log;
      ret, released := 0, [];
      BeforeBuckets(log, Hash(), okToDel);
      assert PurgedTo(all, 0, okToDel, ret, released);
      var b: nat := 0;
      while b < heads.Length
        invariant b <= heads.Length && PurgedTo(all, b, okToDel, ret, released)
      {
        ret, released := PurgeBucket(b, okToDel, ret, released, all);
        b := b + 1;
      }
    }

    /** One bucket of `hashtbl_traverse_delete`. */
    method PurgeBucket(b: nat, okToDel: Entry<K, V> -> bool, ret: nat, released: seq<Entry<K, V>>,
                       ghost all: seq<Entry<K, V>>)
      returns (ret': nat, released': seq<Entry<K, V>>)
      requires b < heads.Length && PurgedTo(all, b, okToDel, ret, released)
      modifies this`cnt, this`log, heads
      ensures PurgedTo(all, b + 1, okToDel, ret', released')
    {
      ghost var was := log;
      KeepPurged(log, Hash(), b, okToDel, heads.Length);
      KeepLess(log, InBucket(Hash(), b));
      var kept, gone := PurgeChain(b, okToDel);
      ghost var next := Keep(log, Stays(Hash(), b, okToDel));
      assert forall c: nat :: c < heads.Length ==> heads[c] == Keep(next, InBucket(Hash(), c));
      log := next;
      BucketPurged(all, was, log, Hash(), b, okToDel, ret, released, kept, gone);
      ret', released' := ret + kept, released + gone;
    }

    method PurgeChain(b: nat, okToDel: Entry<K, V> -> bool) returns (kept: nat, gone: seq<Entry<K, V>>)
      requires b < heads.Length && |heads[b]| <= cnt
      modifies this`cnt, heads
      ensures heads[b] == Keep(old(heads[b]), Not(okToDel)) && gone == Keep(old(heads[b]), okToDel)
      ensures forall c: nat :: c < heads.Length && c != b ==> heads[c] == old(heads[c])
      ensures kept == |heads[b]| && cnt + |gone| == old(cnt)
    {
      ghost var chain := heads[b];
      ghost var m: nat := 0;
      var pos := 0;
      kept, gone := 0, [];
      while pos < |heads[b]|
        invariant Purging(chain, m, okToDel, heads[b], pos, gone) && kept == pos
        invariant forall c: nat :: c < heads.Length && c != b ==> heads[c] == old(heads[c])
        invariant cnt + |gone| == old(cnt)
        decreases |chain| - m
      {
        var entry := heads[b][pos];
        PurgeNext(chain, m, okToDel, heads[b], pos, gone);
        m := m + 1;
        if okToDel(entry) {
          heads[b] := Without(heads[b], pos);
          gone := gone + [entry];
          cnt := cnt - 1;
        } else {
          kept := kept + 1;
          pos := pos + 1;
        }
      }
      PurgeEnd(chain, m, okToDel, heads[b], pos, gone);
    }

    /** `hashtbl_clear`: every entry goes to `release` once. */
    method Clear() returns (released: seq<Entry<K, V>>)
      requires Valid()
      modifies this`cnt, this`log, heads
      ensures Valid() && log == [] && cnt == 0
      ensures multiset(released) == multiset(old(log))
    {
      released := ClearChains();
      EveryEntryOnce(log, Hash(), heads.Length);
      cnt := 0;
      log := [];
    }

    method ClearChains() returns (released: seq<Entry<K, V>>)
      requires Valid()
      modifies heads
      ensures released == InBuckets(log, Hash(), heads.Length)
      ensures forall c: nat :: c < heads.Length ==> heads[c] == []
    {
      released := [];
      var b: nat := 0;
      while b < heads.Length
        invariant b <= heads.Length && released == InBuckets(log, Hash(), b)
        invariant forall c: nat :: c < heads.Length ==> heads[c] == if c < b then [] else old(heads[c])
      {
        released := ClearChain(b, released);
        b := b + 1;
      }
    }

    method ClearChain(b: nat, before: seq<Entry<K, V>>) returns (released: seq<Entry<K, V>>)
      requires b < heads.Length
      modifies heads
      ensures released == before + old(heads[b]) && heads[b] == []
      ensures forall c: nat :: c < heads.Length && c != b ==> heads[c] == old(heads[c])
    {
      released := before;
      while heads[b] != []
        invariant before + old(heads[b]) == released + heads[b]
        invariant forall c: nat :: c < heads.Length && c != b ==> heads[c] == old(heads[c])
        decreases |heads[b]|
      {
        MoveOne(released, heads[b]);
        released := released + [heads[b][0]];
        heads[b] := heads[b][1..];
      }
    }
  }

  lemma TakeOne<T>(before: seq<T>, chain: seq<T>, pos: nat)
    requires pos < |chain|
    ensures before + chain[..pos] + [chain[pos]] == before + chain[..pos + 1]
  {}

  lemma MoveOne<T>(done: seq<T>, rest: seq<T>)
    requires rest != []
    ensures done + [rest[0]] + rest[1..] == done + rest
  {}

  // ----- Purging bucket by bucket -----

  /** Left after the first `n` buckets have been purged. */
  ghost function LaterOrNot<K, V>(h: K -> nat, n: nat, ok: Entry<K, V> -> bool): Entry<K, V> -> bool {
    (e: Entry<K, V>) => n <= h(e.key) || !ok(e)
  }

  ghost function Taken<K, V>(h: K -> nat, n: nat, ok: Entry<K, V> -> bool): Entry<K, V> -> bool {
    (e: Entry<K, V>) => h(e.key) < n && ok(e)
  }

  ghost function Stays<K, V>(h: K -> nat, b: nat, ok: Entry<K, V> -> bool): Entry<K, V> -> bool {
    (e: Entry<K, V>) => h(e.key) != b || !ok(e)
  }

  ghost function Goes<K, V>(h: K -> nat, b: nat, ok: Entry<K, V> -> bool): Entry<K, V> -> bool {
    (e: Entry<K, V>) => h(e.key) == b && ok(e)
  }

  /** The first `n` buckets have been purged: `ret` entries were met and left, the others were released. */
  ghost predicate Purged<K, V>(all: seq<Entry<K, V>>, log: seq<Entry<K, V>>, h: K -> nat, n: nat,
                               ok: Entry<K, V> -> bool, ret: nat, released: seq<Entry<K, V>>) {
    && log == Keep(all, LaterOrNot(h, n, ok))
    && multiset(released) == multiset(Keep(all, Taken(h, n, ok)))
    && ret == |Keep(log, Below(h, n))|
  }

  lemma BeforeBuckets<K, V>(all: seq<Entry<K, V>>, h: K -> nat, ok: Entry<K, V> -> bool)
    ensures Purged(all, all, h, 0, ok, 0, [])
  {
    forall e: Entry<K, V> | e in all
      ensures LaterOrNot<K, V>(h, 0, ok)(e) && !Taken<K, V>(h, 0, ok)(e) && !Below<K, V>(h, 0)(e)
    {
      assert h(e.key) >= 0;
    }
    KeepAll(all, LaterOrNot(h, 0, ok));
    KeepNone(all, Taken(h, 0, ok));
    KeepNone(all, Below(h, 0));
  }

  lemma BucketPurged<K, V>(all: seq<Entry<K, V>>, was: seq<Entry<K, V>>, now: seq<Entry<K, V>>, h: K -> nat,
                           b: nat, ok: Entry<K, V> -> bool, ret: nat, released: seq<Entry<K, V>>,
                           kept: nat, gone: seq<Entry<K, V>>)
    requires Purged(all, was, h, b, ok, ret, released) && now == Keep(was, Stays(h, b, ok))
    requires gone == Keep(was, Goes(h, b, ok)) && kept == |Keep(now, InBucket(h, b))|
    ensures Purged(all, now, h, b + 1, ok, ret + kept, released + gone)
  {
    KeepTwice(all, LaterOrNot(h, b, ok), Stays(h, b, ok), LaterOrNot(h, b + 1, ok));
    KeepTwice(all, LaterOrNot(h, b, ok), Goes(h, b, ok), Goes(h, b, ok));
    KeepSplits(all, Taken(h, b, ok), Goes(h, b, ok), Taken(h, b + 1, ok));
    KeepTwice(was, Stays(h, b, ok), Below(h, b), Below(h, b));
    KeepSplits(now, Below(h, b), InBucket(h, b), Below(h, b + 1));
    SameSize(Keep(now, Below(h, b)), Keep(now, InBucket(h, b)), Keep(now, Below(h, b + 1)));
  }

  lemma AfterBuckets<K, V>(all: seq<Entry<K, V>>, now: seq<Entry<K, V>>, h: K -> nat, n: nat,
                           ok: Entry<K, V> -> bool, ret: nat, released: seq<Entry<K, V>>)
    requires forall e :: e in all ==> h(e.key) < n
    requires Purged(all, now, h, n, ok, ret, released)
    ensures now == Keep(all, Not(ok)) && multiset(released) == multiset(Keep(all, ok)) && ret == |now|
  {
    KeepSame(all, LaterOrNot(h, n, ok), Not(ok));
    KeepSame(all, Taken(h, n, ok), ok);
    KeepMembers(all, Not(ok));
    KeepAll(now, Below(h, n));
  }

  lemma SameSize<T>(a: seq<T>, b: seq<T>, c: seq<T>)
    requires multiset(a) + multiset(b) == multiset(c)
    ensures |a| + |b| == |c|
  {
    assert |multiset(a)| == |a| && |multiset(b)| == |b| && |multiset(c)| == |c|;
  }

  /** The chains and the entries after bucket `b` is purged. */
  lemma KeepPurged<K, V>(log: seq<Entry<K, V>>, h: K -> nat, b: nat, ok: Entry<K, V> -> bool, n: nat)
    ensures var next := Keep(log, Stays(h, b, ok));
      && (forall c: nat :: c < n && c != b ==> Keep(next, InBucket(h, c)) == Keep(log, InBucket(h, c)))
      && Keep(next, InBucket(h, b)) == Keep(Keep(log, InBucket(h, b)), Not(ok))
      && Keep(Keep(log, InBucket(h, b)), ok) == Keep(log, Goes(h, b, ok))
      && |next| + |Keep(log, Goes(h, b, ok))| == |log|
      && forall e :: e in next ==> e in log
  {
    var next := Keep(log, Stays(h, b, ok));
    forall c: nat | c < n && c != b
      ensures Keep(next, InBucket(h, c)) == Keep(log, InBucket(h, c))
    {
      KeepTwice(log, Stays(h, b, ok), InBucket(h, c), InBucket(h, c));
    }
    KeepTwice(log, Stays(h, b, ok), InBucket(h, b), StaysIn(h, b, ok));
    KeepTwice(log, InBucket(h, b), Not(ok), StaysIn(h, b, ok));
    KeepTwice(log, InBucket(h, b), ok, Goes(h, b, ok));
    KeepSplits(log, Stays(h, b, ok), Goes(h, b, ok), Any());
    KeepAll(log, Any());
    SameSize(next, Keep(log, Goes(h, b, ok)), log);
    KeepMembers(log, Stays(h, b, ok));
  }

  ghost function StaysIn<K, V>(h: K -> nat, b: nat, ok: Entry<K, V> -> bool): Entry<K, V> -> bool {
    (e: Entry<K, V>) => h(e.key) == b && !ok(e)
  }

  ghost function Any<T>(): T -> bool {
    x => true
  }

  /** After the first `m` entries of a chain: `cur` is what the chain has become. */
  ghost predicate Purging<T>(chain: seq<T>, m: nat, ok: T -> bool, cur: seq<T>, pos: nat, gone: seq<T>) {
    && m <= |chain| && pos == |Keep(chain[..m], Not(ok))|
    && cur == Keep(chain[..m], Not(ok)) + chain[m..] && gone == Keep(chain[..m], ok)
    && |cur| + |gone| == |chain|
  }

  /** One more entry of a chain, which stays at its place or goes. */
  lemma PurgeNext<T>(chain: seq<T>, m: nat, ok: T -> bool, cur: seq<T>, pos: nat, gone: seq<T>)
    requires Purging(chain, m, ok, cur, pos, gone) && pos < |cur|
    ensures m < |chain| && |gone| < |chain|
    ensures if ok(cur[pos]) then Purging(chain, m + 1, ok, Without(cur, pos), pos, gone + [cur[pos]])
      else Purging(chain, m + 1, ok, cur, pos + 1, gone)
  {
    assert chain[..m + 1] == chain[..m] + [chain[m]];
    KeepNext(chain[..m], chain[m], Not(ok));
    KeepNext(chain[..m], chain[m], ok);
    MoveOn(Keep(chain[..m], Not(ok)), chain, m);
  }

  lemma MoveOn<T>(front: seq<T>, chain: seq<T>, m: nat)
    requires m < |chain|
    ensures var cur := front + chain[m..];
      && cur[|front|] == chain[m]
      && Without(cur, |front|) == front + chain[m + 1..]
      && cur == front + [chain[m]] + chain[m + 1..]
  {}

  lemma PurgeEnd<T>(chain: seq<T>, m: nat, ok: T -> bool, cur: seq<T>, pos: nat, gone: seq<T>)
    requires Purging(chain, m, ok, cur, pos, gone) && pos >= |cur|
    ensures cur == Keep(chain, Not(ok)) && gone == Keep(chain, ok) && pos == |cur|
  {
    assert chain[..m] == chain;
  }

  lemma {:induction false} KeepLess<T>(s: seq<T>, p: T -> bool)
    ensures |Keep(s, p)| <= |s|
  {
    if s != [] {
      KeepLess(s[..|s| - 1], p);
    }
  }

  lemma OldestOf<T>(s: seq<T>, p: T -> bool)
    requires Keep(s, p) != []
    ensures var i := First(s, p);
      i < |s| && s[i] == Keep(s, p)[0] && Keep(Without(s, i), p) == Without(Keep(s, p), 0)
  {
    var c := Keep(s, p);
    KeepMembers(s, p);
    assert c[0] in c;
    FirstIs(c, p, 0);
    FirstKept(s, p, p, p);
  }

  lemma NoneMet<K, V>(log: seq<Entry<K, V>>, h: K -> nat, cmp: (K, K) -> int, key: K, n: nat)
    requires n <= h(key) && forall e :: e in log ==> h(e.key) < n
    ensures Keep(log, Meets(h, cmp, key)) == [] && First(log, Meets(h, cmp, key)) == |log|
  {
    KeepNone(log, Meets(h, cmp, key));
    FirstIs(log, Meets(h, cmp, key), |log|);
  }

  /** What a search meets is found along the chain of its bucket. */
  lemma ChainMet<K, V>(log: seq<Entry<K, V>>, h: K -> nat, cmp: (K, K) -> int, key: K)
    ensures Keep(Keep(log, InBucket(h, h(key))), EqualTo(cmp, key)) == Keep(log, Meets(h, cmp, key))
  {
    KeepTwice(log, InBucket(h, h(key)), EqualTo(cmp, key), Meets(h, cmp, key));
  }

  /** The first of them is the oldest of all that the search meets. */
  lemma ChainFirst<K, V>(log: seq<Entry<K, V>>, h: K -> nat, cmp: (K, K) -> int, key: K, chain: seq<Entry<K, V>>)
    requires chain == Keep(log, InBucket(h, h(key)))
    ensures var i, pos := First(log, Meets(h, cmp, key)), First(chain, EqualTo(cmp, key));
      && (i < |log| <==> pos < |chain|)
      && (i < |log| ==>
          && log[i] == chain[pos] && InBucket<K, V>(h, h(key))(log[i])
          && Keep(Without(log, i), InBucket(h, h(key))) == Without(chain, pos))
  {
    FirstKept(log, InBucket(h, h(key)), EqualTo(cmp, key), Meets(h, cmp, key));
  }

  /** One more entry of a chain examined. */
  lemma FoundNext<T>(s: seq<T>, pos: nat, p: T -> bool)
    requires pos < |s|
    ensures var n := |Keep(s[..pos], p)|;
      && |Keep(s[..pos + 1], p)| == (if p(s[pos]) then n + 1 else n)
      && (p(s[pos]) ==> n < |Keep(s, p)| && Keep(s, p)[n] == s[pos])
  {
    assert s[..pos + 1] == s[..pos] + [s[pos]] && s == s[..pos + 1] + s[pos + 1..];
    KeepNext(s[..pos], s[pos], p);
    KeepJoin(s[..pos + 1], s[pos + 1..], p);
  }
}
